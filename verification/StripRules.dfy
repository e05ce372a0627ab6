/** What each of the three expressions takes out of a text that cites work-item IDs in one place. */
module StripRules {
  import opened Options
  import opened Regex
  import opened RegexFirst
  import opened WorkItemIds
  import opened IdText
  import opened IdLists
  import opened StripForms

  lemma BlanksAre()
    ensures BLANKS == Many(Ch(Blank)) && SPACES == Many(Ch(Space))
  {
  }

  lemma LettersAreNoBlanks(s: string, k: nat)
    requires k < |s| && (s[k] == 'M' || s[k] == 'L')
    ensures !IsSpace(s[k]) && !IsBlank(s[k]) && s[k] != '*' && s[k] != 's' && !IsDash(s[k]) && s[k] != '\n'
  {
  }

  lemma ListStarts(kind: Kind, s: string, i: nat, id: Id, ns: seq<Next>)
    requires ListAt(kind, s, i, id, ns)
    ensures i < |s| && (s[i] == 'M' || s[i] == 'L') && i + |ShowList(id, ns)| <= |s|
    ensures IsListBetween(s, i, i + |ShowList(id, ns)|)
  {
    ListIsBetween(kind, s, i, id, ns);
  }

  // ----- `(ID, ID)` -----

  predicate IsSee(see: string) { see == "" || (|see| > 3 && see[..3] == "see" && AllIn(Space, see[3..])) }

  function Parenthetical(blanks: string, see: string, id: Id, ns: seq<Next>): string {
    blanks + ("(" + (see + (ShowList(id, ns) + ")")))
  }

  lemma ParentheticalParts(s: string, i: nat, blanks: string, see: string, list: string)
    requires At(s, i, blanks + ("(" + (see + (list + ")"))))
    ensures var p := i + |blanks|;
            var a := p + 1 + |see|;
            var b := a + |list|;
            && At(s, i, blanks) && At(s, p + 1, see) && At(s, a, list)
            && b + 1 == i + |blanks + ("(" + (see + (list + ")")))| <= |s| && s[p] == '(' && s[b] == ')'
  {
    var p := i + |blanks|;
    var a := p + 1 + |see|;
    var last := list + ")";
    var rest := see + last;
    hide At;
    AtThree(s, i, blanks, "(", rest);
    AtConcat(s, p + 1, see, last);
    AtConcat(s, a, list, ")");
    AtChar(s, p, "(", 0);
    AtChar(s, a + |list|, ")", 0);
  }

  /** Right behind the list stands the closing parenthesis. */
  lemma ClosingEndsList(s: string, b: nat)
    requires b < |s| && s[b] == ')'
    ensures ListEnds(s, b)
  {
    assert SpacesTo(s, b, b);
    if At(s, b, "-ok") { AtChar(s, b, "-ok", 0); }
  }

  lemma FirstSee(s: string, i: nat, see: string)
    requires IsSee(see) && At(s, i, see) && i + |see| < |s| && (s[i + |see|] == 'M' || s[i + |see|] == 'L')
    ensures First(SEE, s, i, i + |see|)
  {
    var e := i + |see|;
    LettersAreNoBlanks(s, e);
    if see == "" {
      WordDiffers("see", s, i, 0);
      FailsCat(Word("see"), Some1(Ch(Space)), s, i);
    } else {
      assert see == see[..3] + see[3..];
      AtConcat(s, i, see[..3], see[3..]);
      FirstWord("see", s, i);
      AllInAt(Space, s, i + 3, see[3..]);
      FirstRunOfSome(Space, s, i + 3, e);
      hide First, Fails;
      FirstCat(Word("see"), Some1(Ch(Space)), s, i, i + 3, e);
    }
    hide First, Fails;
    FirstMaybe(Cat(Word("see"), Some1(Ch(Space))), s, i, e);
  }

  lemma SeeOpens(s: string, p: nat, see: string)
    requires IsSee(see) && p < |s| && s[p] == '(' && At(s, p + 1, see)
    ensures OpensAt(s, p, p + 1 + |see|)
  {
    if see != "" {
      assert see == see[..3] + see[3..];
      AtConcat(s, p + 1, see[..3], see[3..]);
      AllInAt(Space, s, p + 4, see[3..]);
    }
  }

  lemma PureParts()
    ensures PURE_PARENTHETICAL == Cat(BLANKS, Cat(Chr('('), Cat(SEE, LIST_IN_PARENTHESES)))
    ensures LIST_IN_PARENTHESES == Cat(PREFIX, Cat(NUMBER, Cat(Many(BodyOf(InParentheses)), Chr(')'))))
  {
  }

  lemma ClosingChar()
    ensures Chr(')') == Ch(One(')')) && In(One(')'), ')')
  {
  }

  lemma FirstListInParentheses(s: string, a: nat, id: Id, ns: seq<Next>)
    requires ListAt(InParentheses, s, a, id, ns)
    requires a + |ShowList(id, ns)| < |s| && s[a + |ShowList(id, ns)|] == ')'
    ensures First(LIST_IN_PARENTHESES, s, a, a + |ShowList(id, ns)| + 1)
  {
    hide *;
    var b := a + |ShowList(id, ns)|;
    FirstChar(One(')'), s, b);
    PureParts();
    ClosingChar();
    FirstList(InParentheses, s, a, id, ns);
    var more := Many(BodyOf(InParentheses));
    var m := a + |id.name| + 1;
    var n := m + |id.digits|;
    FirstCat(more, Chr(')'), s, n, b, b + 1);
    FirstCat(NUMBER, Cat(more, Chr(')')), s, m, n, b + 1);
    FirstCat(PREFIX, Cat(NUMBER, Cat(more, Chr(')'))), s, a, m, b + 1);
  }

  lemma ParenthesisStarts(s: string, i: nat, blanks: string, see: string, list: string)
    requires AllIn(Blank, blanks) && IsSee(see) && At(s, i, blanks + ("(" + (see + (list + ")"))))
    ensures var p := i + |blanks|;
            var a := p + 1 + |see|;
            var b := a + |list|;
            && At(s, i, blanks) && At(s, p + 1, see) && At(s, a, list) && ListEnds(s, b)
            && b + 1 == i + |blanks + ("(" + (see + (list + ")")))| <= |s| && s[b] == ')'
            && OpensAt(s, p, a) && BlanksIn(s, i, p)
            && First(Chr('('), s, p, p + 1) && First(BLANKS, s, i, p)
  {
    var p := i + |blanks|;
    ParentheticalParts(s, i, blanks, see, list);
    hide At, IsSee, ListEnds, OpensAt;
    ClosingEndsList(s, p + 1 + |see| + |list|);
    SeeOpens(s, p, see);
    AllInAt(Blank, s, i, blanks);
    FirstChar(One('('), s, p);
    FirstRun(Blank, s, i, p);
    BlanksAre();
  }

  lemma ParentheticalIsAt(s: string, i: nat, blanks: string, see: string, id: Id, ns: seq<Next>)
    requires AllIn(Blank, blanks) && IsSee(see) && IsId(id) && AreNext(InParentheses, ns)
    requires At(s, i, Parenthetical(blanks, see, id, ns))
    ensures var p := i + |blanks|;
            var a := p + 1 + |see|;
            var b := a + |ShowList(id, ns)|;
            && b + 1 == i + |Parenthetical(blanks, see, id, ns)| <= |s| && s[b] == ')' && At(s, p + 1, see)
            && ListAt(InParentheses, s, a, id, ns) && OpensAt(s, p, a) && BlanksIn(s, i, p)
            && First(Chr('('), s, p, p + 1) && First(BLANKS, s, i, p)
  {
    hide At, ShowList, AllIn, IsSee, IsId, AreNext, ListEnds, OpensAt, BlanksIn, First;
    ParenthesisStarts(s, i, blanks, see, ShowList(id, ns));
  }

  lemma FirstParenthetical(s: string, i: nat, blanks: string, see: string, id: Id, ns: seq<Next>)
    requires AllIn(Blank, blanks) && IsSee(see) && IsId(id) && AreNext(InParentheses, ns)
    requires At(s, i, Parenthetical(blanks, see, id, ns))
    ensures var p := i + |blanks|;
            var a := p + 1 + |see|;
            && ListAt(InParentheses, s, a, id, ns) && OpensAt(s, p, a) && BlanksIn(s, i, p)
            && a + |ShowList(id, ns)| + 1 == i + |Parenthetical(blanks, see, id, ns)| <= |s|
            && First(PURE_PARENTHETICAL, s, i, a + |ShowList(id, ns)| + 1)
  {
    hide *;
    var p := i + |blanks|;
    var a := p + 1 + |see|;
    var b := a + |ShowList(id, ns)|;
    ParentheticalIsAt(s, i, blanks, see, id, ns);
    BlanksAre();
    PureParts();
    ListStarts(InParentheses, s, a, id, ns);
    FirstSee(s, p + 1, see);
    FirstListInParentheses(s, a, id, ns);
    FirstCat(SEE, LIST_IN_PARENTHESES, s, p + 1, a, b + 1);
    FirstCat(Chr('('), Cat(SEE, LIST_IN_PARENTHESES), s, p, p + 1, b + 1);
    FirstCat(BLANKS, Cat(Chr('('), Cat(SEE, LIST_IN_PARENTHESES)), s, i, p, b + 1);
  }

  lemma OpensOnce(s: string, p: nat, p': nat, q: nat)
    requires OpensAt(s, p, q) && OpensAt(s, p', q)
    ensures p == p'
  {
    if q != p + 1 { AtChar(s, p + 1, "see", 2); }
    if q != p' + 1 { AtChar(s, p' + 1, "see", 2); }
  }

  /** Before the blanks in front of its parenthesis, the expression does not match. */
  lemma NoPureBefore(s: string, i: nat, p: nat, a: nat, b: nat)
    requires i <= p < a && OpensAt(s, p, a) && (i == 0 || !IsBlank(s[i - 1]))
    requires IsListBetween(s, a, b) && OnlyIdsIn(s, 0, a, b)
    ensures !MayBeEmpty(PURE_RULE.drop) && Unmatched(PURE_RULE, s, 0, i)
  {
    PureRuleIsGentle();
    forall k | 0 <= k < i ensures MatchAt(PURE_RULE, s, k) == None {
      if MatchAt(PURE_RULE, s, k).Some? {
        var m := MatchAt(PURE_RULE, s, k).value;
        EmptyKeeps(s, k, m.keepEnd);
        var p', q := PureFound(s, k, m.end);
        if q == a {
          OpensOnce(s, p, p', a);
        } else {
          InsideList(s, a, b, q);
        }
      }
    }
  }

  lemma EmptyKeeps(s: string, k: nat, m: nat)
    requires k <= |s| && m in Ends(Empty, s, k)
    ensures m == k
  {
  }

  lemma PureMatch(s: string, i: nat, e: nat)
    requires i <= |s| && First(PURE_PARENTHETICAL, s, i, e)
    ensures !MayBeEmpty(PURE_RULE.drop) && i < e <= |s| && MatchAt(PURE_RULE, s, i) == Some(Match(i, e))
  {
    PureRuleIsGentle();
    FirstEmpty(s, i);
    FirstMatch(PURE_RULE, s, i, i, e);
  }

  lemma PureBehind(s: string, a: nat, b: nat, from: nat)
    requires OnlyIdsIn(s, 0, a, b) && b <= from
    ensures !MayBeEmpty(PURE_RULE.drop) && Unmatched(PURE_RULE, s, from, |s|)
  {
    PureNone(s, from);
  }

  lemma InsertsNothing()
    ensures PURE_RULE.insert == "" && LABEL_RULE.insert == "" && CITATION_RULE.insert == ""
  {
  }

  /** A parenthetical of IDs, and the blanks before it, are all that the first expression takes out. */
  lemma ParentheticalDropped(s: string, i: nat, blanks: string, see: string, id: Id, ns: seq<Next>)
    requires AllIn(Blank, blanks) && IsSee(see) && IsId(id) && AreNext(InParentheses, ns)
    requires At(s, i, Parenthetical(blanks, see, id, ns)) && (i == 0 || !IsBlank(s[i - 1]))
    requires var a := i + |blanks| + 1 + |see|; OnlyIdsIn(s, 0, a, a + |ShowList(id, ns)|)
    ensures !MayBeEmpty(PURE_RULE.drop) && i + |Parenthetical(blanks, see, id, ns)| <= |s|
    ensures Replace(PURE_RULE, s) == s[..i] + s[i + |Parenthetical(blanks, see, id, ns)|..]
  {
    var p := i + |blanks|;
    var a := p + 1 + |see|;
    var b := a + |ShowList(id, ns)|;
    hide *;
    FirstParenthetical(s, i, blanks, see, id, ns);
    ListStarts(InParentheses, s, a, id, ns);
    PureMatch(s, i, b + 1);
    NoPureBefore(s, i, p, a, b);
    PureBehind(s, a, b, b + 1);
    ReplacedOnce(PURE_RULE, s, i, Match(i, b + 1));
    InsertsNothing();
    assert s[..i] + "" + s[b + 1..] == s[..i] + s[b + 1..];
  }

  predicate IsStripRule(rule: Rule) { rule == PURE_RULE || rule == LABEL_RULE || rule == CITATION_RULE }

  /** Where no ID begins, none of the expressions matches. */
  lemma NoIdsBehind(rule: Rule, s: string, a: nat, b: nat, from: nat)
    requires IsStripRule(rule) && OnlyIdsIn(s, 0, a, b) && b <= from
    ensures !MayBeEmpty(rule.drop) && Unmatched(rule, s, from, |s|)
  {
    if rule == PURE_RULE {
      PureNone(s, from);
    } else if rule == LABEL_RULE {
      LabelNone(s, from);
    } else {
      CitationNone(s, from);
    }
  }

  lemma NoIdsNoChange(rule: Rule, s: string)
    requires IsStripRule(rule) && NoIds(s)
    ensures !MayBeEmpty(rule.drop) && Replace(rule, s) == s
  {
    NoIdsBehind(rule, s, 0, 0, 0);
    hide MatchAt, MayBeEmpty, Unmatched;
    ReplacedNever(rule, s);
  }

  // ----- `ID, ID: ` behind a marker -----

  predicate IsMarker(m: string) {
    m == "//" || m == "*" || m == "{/*" || (|m| >= 2 && m[0] == '/' && AllIn(One('*'), m[1..]))
  }

  /** The start of a line up to a label: a line feed unless the text begins here, and a marker among blanks. */
  function LineUpTo(feed: string, before: string, marker: string, after: string): string {
    feed + (before + (marker + after))
  }

  function Label(id: Id, ns: seq<Next>, before: string, sep: string, after: string): string {
    ShowList(id, ns) + (before + (sep + after))
  }

  predicate IsLabelSeparator(sep: string) { sep == ":" || sep == "—" || sep == "-" }

  lemma StarsAt(s: string, a: nat, m: string)
    requires |m| >= 2 && m[0] == '/' && AllIn(One('*'), m[1..]) && At(s, a, m)
    ensures s[a] == '/' && forall k :: a + 1 <= k < a + |m| ==> s[k] == '*'
  {
    AtChar(s, a, m, 0);
    forall k | a + 1 <= k < a + |m| ensures s[k] == '*' {
      AtChar(s, a, m, k - a);
      assert In(One('*'), m[1..][k - a - 1]);
    }
  }

  const STARS: Re := Cat(Chr('/'), Some1(Chr('*')))

  lemma MarkParts()
    ensures LABEL_MARKS == Or(Word("//"), Or(STARS, LAST_MARKS)) && LAST_MARKS == Or(Chr('*'), Word("{/*"))
  {
  }

  lemma FirstStars(s: string, a: nat, b: nat)
    requires a + 1 < b <= |s| && s[a] == '/' && (forall k :: a + 1 <= k < b ==> s[k] == '*')
    requires b < |s| ==> s[b] != '*'
    ensures First(STARS, s, a, b) && Fails(Word("//"), s, a)
  {
    WordDiffers("//", s, a, 1);
    FirstChar(One('/'), s, a);
    FirstRunOfSome(One('*'), s, a + 1, b);
    FirstCat(Chr('/'), Some1(Chr('*')), s, a, a + 1, b);
  }

  lemma FirstLastMark(s: string, a: nat, m: string)
    requires (m == "*" || m == "{/*") && At(s, a, m)
    ensures First(LAST_MARKS, s, a, a + |m|) && Fails(STARS, s, a) && Fails(Word("//"), s, a)
  {
    AtChar(s, a, m, 0);
    WordDiffers("//", s, a, 0);
    FirstChar(One('/'), s, a);
    FailsCat(Chr('/'), Some1(Chr('*')), s, a);
    FirstChar(One('*'), s, a);
    if m == "{/*" { FirstWord(m, s, a); }
    hide First, Fails;
    FirstOr(Chr('*'), Word("{/*"), s, a, a + |m|);
  }

  lemma FirstMark(s: string, a: nat, m: string)
    requires IsMarker(m) && At(s, a, m) && (a + |m| < |s| ==> s[a + |m|] != '*')
    ensures First(LABEL_MARKS, s, a, a + |m|)
  {
    var b := a + |m|;
    MarkParts();
    if m == "//" {
      FirstWord(m, s, a);
      hide First, Fails;
      FirstOr(Word("//"), Or(STARS, LAST_MARKS), s, a, b);
    } else if m == "*" || m == "{/*" {
      FirstLastMark(s, a, m);
      hide First, Fails;
      FirstOr(STARS, LAST_MARKS, s, a, b);
      FirstOr(Word("//"), Or(STARS, LAST_MARKS), s, a, b);
    } else {
      StarsAt(s, a, m);
      FirstStars(s, a, b);
      hide First, Fails;
      FirstOr(STARS, LAST_MARKS, s, a, b);
      FirstOr(Word("//"), Or(STARS, LAST_MARKS), s, a, b);
    }
  }

  lemma MarkerIsMark(s: string, a: nat, m: string)
    requires IsMarker(m) && At(s, a, m)
    ensures MarkerAt(s, a, a + |m|) && !IsBlank(s[a])
  {
    if |m| >= 2 && m[0] == '/' && AllIn(One('*'), m[1..]) {
      StarsAt(s, a, m);
    } else {
      AtChar(s, a, m, 0);
      if m == "//" || m == "{/*" { AtChar(s, a, m, 1); }
      if m == "{/*" { AtChar(s, a, m, 2); }
    }
  }

  lemma FirstAtLine(s: string, i: nat, feed: string)
    requires (feed == "" && i == 0) || (feed == "\n" && i > 0 && At(s, i, feed))
    requires i + |feed| <= |s|
    ensures First(AT_LINE, s, i, i + |feed|) && LineBegins(s, i, i + |feed|)
  {
    FirstChar(One('\n'), s, i);
    if feed != "" { AtChar(s, i, feed, 0); }
    assert if i == 0 then First(InputStart, s, i, i) else Fails(InputStart, s, i);
    hide First, Fails;
    FirstOr(InputStart, Chr('\n'), s, i, i + |feed|);
  }

  predicate IsLineFeed(i: nat, feed: string) { (feed == "" && i == 0) || (feed == "\n" && i > 0) }

  lemma LineParts(s: string, i: nat, feed: string, before: string, marker: string, after: string)
    requires At(s, i, LineUpTo(feed, before, marker, after))
    ensures var r := i + |feed|;
            var c := r + |before|;
            var d := c + |marker|;
            && At(s, i, feed) && At(s, r, before) && At(s, c, marker) && At(s, d, after)
            && d + |after| == i + |LineUpTo(feed, before, marker, after)| <= |s|
  {
    var rest := before + (marker + after);
    hide At;
    AtConcat(s, i, feed, rest);
    AtThree(s, i + |feed|, before, marker, after);
    LineInText(s, i, feed + rest);
  }

  lemma LineInText(s: string, i: nat, t: string)
    requires At(s, i, t)
    ensures i + |t| <= |s|
  {
  }

  lemma FirstBlanksTo(s: string, i: nat, blanks: string)
    requires AllIn(Blank, blanks) && At(s, i, blanks) && (i + |blanks| < |s| ==> !IsBlank(s[i + |blanks|]))
    ensures First(BLANKS, s, i, i + |blanks|) && BlanksIn(s, i, i + |blanks|)
  {
    AllInAt(Blank, s, i, blanks);
    FirstRun(Blank, s, i, i + |blanks|);
  }

  lemma AfterMarkerNoStar(s: string, d: nat, after: string)
    requires AllIn(Blank, after) && At(s, d, after)
    requires d + |after| < |s| && (s[d + |after|] == 'M' || s[d + |after|] == 'L')
    ensures s[d] != '*'
  {
    if after != "" {
      AtChar(s, d, after, 0);
      assert In(Blank, after[0]);
    }
  }

  /** The start of the line, up to the list, is what the expression keeps. */
  lemma FirstLabelMarker(s: string, i: nat, feed: string, before: string, marker: string, after: string)
    requires IsLineFeed(i, feed) && AllIn(Blank, before) && IsMarker(marker) && AllIn(Blank, after)
    requires At(s, i, LineUpTo(feed, before, marker, after))
    requires var q := i + |LineUpTo(feed, before, marker, after)|; q < |s| && (s[q] == 'M' || s[q] == 'L')
    ensures var q := i + |LineUpTo(feed, before, marker, after)|;
            && First(LABEL_MARKER, s, i, q) && LabelledAt(s, i, q)
            && exists p: nat :: p < |s| && IsLastBefore(s, q, p) && (s[p] == '*' || s[p] == '/')
  {
    hide *;
    var r := i + |feed|;
    var c := r + |before|;
    var d := c + |marker|;
    var q := d + |after|;
    LineParts(s, i, feed, before, marker, after);
    LettersAreNoBlanks(s, q);
    LabelParts();
    LineIsLine(s, i, feed);
    FirstAtLine(s, i, feed);
    MarkerIsMark(s, c, marker);
    FirstBlanksTo(s, r, before);
    AfterMarkerNoStar(s, d, after);
    FirstMark(s, c, marker);
    FirstBlanksTo(s, d, after);
    FirstCat(LABEL_MARKS, BLANKS, s, c, d, q);
    FirstCat(BLANKS, Cat(LABEL_MARKS, BLANKS), s, r, c, q);
    FirstCat(AT_LINE, Cat(BLANKS, Cat(LABEL_MARKS, BLANKS)), s, i, r, q);
    LabelStands(s, i, r, c, d, q);
  }

  lemma LineIsLine(s: string, i: nat, feed: string)
    requires IsLineFeed(i, feed) && At(s, i, feed)
    ensures (feed == "" && i == 0) || (feed == "\n" && i > 0 && At(s, i, feed))
    ensures i + |feed| <= |s|
  {
  }

  lemma LabelStands(s: string, i: nat, r: nat, c: nat, d: nat, q: nat)
    requires LineBegins(s, i, r) && BlanksIn(s, r, c) && MarkerAt(s, c, d) && BlanksIn(s, d, q)
    ensures LabelledAt(s, i, q) && exists p: nat :: p < |s| && IsLastBefore(s, q, p) && (s[p] == '*' || s[p] == '/')
  {
    assert IsLastBefore(s, q, d - 1);
  }

  lemma LabelIsList(s: string, q: nat, id: Id, ns: seq<Next>, before: string, sep: string, after: string)
    requires IsId(id) && AreNext(InRun, ns) && AllIn(Blank, before) && IsLabelSeparator(sep) && AllIn(Blank, after)
    requires At(s, q, Label(id, ns, before, sep, after)) && !At(s, q + |ShowList(id, ns)|, "-ok")
    ensures var b := q + |ShowList(id, ns)|;
            var c := b + |before|;
            && ListAt(InRun, s, q, id, ns) && At(s, b, before) && c < |s| && In(Among(":—-"), s[c]) && !IsBlank(s[c])
            && At(s, c + 1, after) && c + 1 + |after| == q + |Label(id, ns, before, sep, after)| <= |s|
  {
    hide At, ShowList, IsId, AreNext, AllIn, In, ListEnds;
    LabelIsAt(s, q, ShowList(id, ns), before, sep, after);
  }

  /** The list, a separator and the blanks behind it are what the expression drops. */
  lemma FirstLeadingLabel(s: string, q: nat, id: Id, ns: seq<Next>, before: string, sep: string, after: string)
    requires IsId(id) && AreNext(InRun, ns) && AllIn(Blank, before) && IsLabelSeparator(sep) && AllIn(Blank, after)
    requires At(s, q, Label(id, ns, before, sep, after)) && !At(s, q + |ShowList(id, ns)|, "-ok")
    requires var e := q + |Label(id, ns, before, sep, after)|; e < |s| ==> !IsBlank(s[e])
    ensures var e := q + |Label(id, ns, before, sep, after)|;
            e <= |s| && ListAt(InRun, s, q, id, ns) && First(LEADING_LABEL, s, q, e)
  {
    hide *;
    var list := ShowList(id, ns);
    var b := q + |list|;
    var c := b + |before|;
    LabelIsList(s, q, id, ns, before, sep, after);
    LabelParts();
    LabelEndIs();
    FirstIdRun(s, q, id, ns);
    FirstBlanksTo(s, b, before);
    FirstChar(Among(":—-"), s, c);
    FirstBlanksTo(s, c + 1, after);
    var e := c + 1 + |after|;
    FirstCat(Ch(Among(":—-")), BLANKS, s, c, c + 1, e);
    FirstCat(BLANKS, Cat(Ch(Among(":—-")), BLANKS), s, b, c, e);
    FirstCat(ID_RUN, LABEL_END, s, q, b, e);
  }

  lemma LabelEndIs()
    ensures LABEL_END == Cat(BLANKS, Cat(Ch(Among(":—-")), BLANKS))
  {
  }

  lemma SeparatorIsIn(sep: string)
    requires IsLabelSeparator(sep)
    ensures |sep| == 1 && In(Among(":—-"), sep[0]) && !IsSpace(sep[0]) && !IsDigit(sep[0]) && sep[0] !in ",/&.a"
  {
  }

  lemma LabelIsAt(s: string, q: nat, list: string, before: string, sep: string, after: string)
    requires AllIn(Blank, before) && IsLabelSeparator(sep) && !At(s, q + |list|, "-ok")
    requires At(s, q, list + (before + (sep + after)))
    ensures var b := q + |list|;
            var c := b + |before|;
            && At(s, q, list) && At(s, b, before) && c < |s| && In(Among(":—-"), s[c]) && !IsBlank(s[c])
            && At(s, c + 1, after) && c + 1 + |after| == q + |list + (before + (sep + after))| <= |s|
            && ListEnds(s, b)
  {
    var b := q + |list|;
    var c := b + |before|;
    var rest := sep + after;
    SeparatorIsIn(sep);
    assert At(s, q, list) && At(s, b, before) && At(s, c, sep) && At(s, c + 1, after) by {
      hide At;
      AtThree(s, q, list, before, rest);
      AtConcat(s, c, sep, after);
    }
    AtChar(s, c, sep, 0);
    LineInText(s, q, list + (before + rest));
    BlanksEndList(s, b, c, before);
  }

  lemma BlanksEndList(s: string, b: nat, c: nat, before: string)
    requires c == b + |before| < |s| && AllIn(Blank, before) && At(s, b, before) && !At(s, b, "-ok")
    requires !IsSpace(s[c]) && !IsDigit(s[c]) && s[c] !in ",/&.a"
    ensures ListEnds(s, b)
  {
    AllInAt(Blank, s, b, before);
    assert SpacesTo(s, b, c);
    if before != "" { assert IsBlank(s[b]); }
  }

  /** No label begins before the line that has one. */
  lemma NoLabelBefore(s: string, i: nat, q: nat, b: nat)
    requires i < q <= |s| && (i == 0 || s[i] == '\n') && IsListBetween(s, q, b) && OnlyIdsIn(s, 0, q, b)
    ensures !MayBeEmpty(LABEL_RULE.drop) && Unmatched(LABEL_RULE, s, 0, i)
  {
    LabelRuleIsGentle();
    hide MayBeEmpty, MayConsume, MayStart, MustConsume, MinLength;
    forall k | 0 <= k < i ensures MatchAt(LABEL_RULE, s, k) == None {
      if MatchAt(LABEL_RULE, s, k).Some? {
        var m := MatchAt(LABEL_RULE, s, k).value;
        LabelFound(s, k, m.keepEnd, m.end);
        if m.keepEnd == q {
          NoFeedInLabel(s, k, q, i);
        } else {
          InsideList(s, q, b, m.keepEnd);
        }
      }
    }
  }

  lemma NoFeedInLabel(s: string, k: nat, q: nat, i: nat)
    requires LabelledAt(s, k, q) && k < i < q
    ensures s[i] != '\n'
  {
    var r: nat, a: nat, b: nat :| LineBegins(s, k, r) && BlanksIn(s, r, a) && MarkerAt(s, a, b) && BlanksIn(s, b, q);
  }

  lemma LabelMatch(s: string, i: nat, q: nat, e: nat)
    requires i <= |s| && First(LABEL_MARKER, s, i, q) && q <= |s| && First(LEADING_LABEL, s, q, e)
    ensures !MayBeEmpty(LABEL_RULE.drop) && i <= q < e <= |s| && MatchAt(LABEL_RULE, s, i) == Some(Match(q, e))
  {
    LabelRuleIsGentle();
    hide First;
    FirstMatch(LABEL_RULE, s, i, q, e);
  }

  lemma LabelBehind(s: string, a: nat, b: nat, from: nat)
    requires OnlyIdsIn(s, 0, a, b) && b <= from
    ensures !MayBeEmpty(LABEL_RULE.drop) && Unmatched(LABEL_RULE, s, from, |s|)
  {
    LabelNone(s, from);
  }

  lemma LabelIsLonger(id: Id, ns: seq<Next>, before: string, sep: string, after: string)
    ensures |ShowList(id, ns)| <= |Label(id, ns, before, sep, after)|
  {
  }

  lemma FeedAt(s: string, i: nat, feed: string, before: string, marker: string, after: string)
    requires IsLineFeed(i, feed) && At(s, i, LineUpTo(feed, before, marker, after)) && marker != ""
    ensures i == 0 || s[i] == '\n'
    ensures |LineUpTo(feed, before, marker, after)| > 0
  {
    if feed != "" { AtChar(s, i, LineUpTo(feed, before, marker, after), 0); }
  }

  lemma MarkerIsText(m: string)
    requires IsMarker(m)
    ensures m != ""
  {
  }

  /** A label of IDs is all that the second expression takes out; the marker before it stays. */
  lemma LabelDropped(s: string, i: nat, feed: string, indent: string, marker: string, gap: string,
                     id: Id, ns: seq<Next>, before: string, sep: string, after: string)
    requires IsLineFeed(i, feed) && AllIn(Blank, indent) && IsMarker(marker) && AllIn(Blank, gap)
    requires IsId(id) && AreNext(InRun, ns) && AllIn(Blank, before) && IsLabelSeparator(sep) && AllIn(Blank, after)
    requires At(s, i, LineUpTo(feed, indent, marker, gap))
    requires var q := i + |LineUpTo(feed, indent, marker, gap)|;
             var e := q + |Label(id, ns, before, sep, after)|;
             && At(s, q, Label(id, ns, before, sep, after)) && !At(s, q + |ShowList(id, ns)|, "-ok")
             && OnlyIdsIn(s, 0, q, q + |ShowList(id, ns)|) && (e < |s| ==> !IsBlank(s[e]))
    ensures var q := i + |LineUpTo(feed, indent, marker, gap)|;
            var e := q + |Label(id, ns, before, sep, after)|;
            && !MayBeEmpty(LABEL_RULE.drop) && e <= |s| && Replace(LABEL_RULE, s) == s[..q] + s[e..]
            && exists p: nat :: p < |s| && IsLastBefore(s, q, p) && (s[p] == '*' || s[p] == '/')
  {
    hide *;
    var q := i + |LineUpTo(feed, indent, marker, gap)|;
    var b := q + |ShowList(id, ns)|;
    var e := q + |Label(id, ns, before, sep, after)|;
    FirstLeadingLabel(s, q, id, ns, before, sep, after);
    ListStarts(InRun, s, q, id, ns);
    FirstLabelMarker(s, i, feed, indent, marker, gap);
    LabelMatch(s, i, q, e);
    MarkerIsText(marker);
    FeedAt(s, i, feed, indent, marker, gap);
    LabelIsLonger(id, ns, before, sep, after);
    NoLabelBefore(s, i, q, b);
    LabelBehind(s, q, b, e);
    ReplacedOnce(LABEL_RULE, s, i, Match(q, e));
    InsertsNothing();
    assert s[..q] + "" + s[e..] == s[..q] + s[e..];
  }

  // ----- ` — ID, ID` where a comment or its line ends -----

  function Citation(before: string, dash: string, after: string, id: Id, ns: seq<Next>): string {
    before + (dash + (after + ShowList(id, ns)))
  }

  predicate IsCitationDash(dash: string) { dash == "—" || dash == "," || dash == "-" }

  /** Past blanks, the comment or its line is over. */
  ghost predicate CommentEnds(s: string, e: nat) {
    exists j: nat :: e <= j && BlanksIn(s, e, j) && (j == |s| || s[j] == '\n' || At(s, j, "*/") || At(s, j, "*}"))
  }

  const ENDINGS: Re := Or(Word("*/"), Or(Word("*}"), Or(Chr('\n'), InputEnd)))

  lemma EndingsMatch(s: string, j: nat)
    requires j <= |s| && (j == |s| || s[j] == '\n' || At(s, j, "*/") || At(s, j, "*}"))
    ensures Ends(ENDINGS, s, j) != []
  {
    OrUnfolds(Word("*/"), Or(Word("*}"), Or(Chr('\n'), InputEnd)), s, j);
    OrUnfolds(Word("*}"), Or(Chr('\n'), InputEnd), s, j);
    OrUnfolds(Chr('\n'), InputEnd, s, j);
    FirstWord("*/", s, j);
    FirstWord("*}", s, j);
    FirstChar(One('\n'), s, j);
    assert j == |s| ==> Ends(InputEnd, s, j) == [j];
  }

  lemma FirstCommentEnd(s: string, e: nat)
    requires CommentEnds(s, e)
    ensures e <= |s| && First(COMMENT_ENDS_HERE, s, e, e)
  {
    var j: nat :| e <= j && BlanksIn(s, e, j) && (j == |s| || s[j] == '\n' || At(s, j, "*/") || At(s, j, "*}"));
    EndingsMatch(s, j);
    var last := Ends(ENDINGS, s, j)[0];
    assert last in Ends(ENDINGS, s, j);
    forall k | e <= k < j ensures In(Blank, s[k]) { }
    RunReaches(Blank, s, e, j);
    CatReaches(BLANKS, ENDINGS, s, e, j, last);
    FirstAhead(Cat(BLANKS, ENDINGS), s, e);
  }

  lemma DashIsDash(dash: string)
    requires IsCitationDash(dash)
    ensures |dash| == 1 && In(Among("—,-"), dash[0]) && IsDash(dash[0]) && !IsBlank(dash[0]) && !IsSpace(dash[0])
    ensures dash[0] != '(' && dash[0] != 'e' && dash[0] != '*' && dash[0] != '/'
  {
  }

  lemma CitationIsAt(s: string, i: nat, before: string, dash: string, after: string, list: string)
    requires AllIn(Blank, before) && IsCitationDash(dash) && AllIn(Blank, after)
    requires At(s, i, before + (dash + (after + list)))
    ensures var p := i + |before|;
            var a := p + 1 + |after|;
            && At(s, i, before) && p < |s| && s[p] == dash[0] && At(s, p + 1, after) && At(s, a, list)
            && a + |list| == i + |before + (dash + (after + list))| <= |s|
            && BlanksIn(s, i, p) && BlanksIn(s, p + 1, a)
  {
    var p := i + |before|;
    var rest := after + list;
    DashIsDash(dash);
    assert At(s, i, before) && At(s, p, dash) && At(s, p + 1, after) && At(s, p + 1 + |after|, list) by {
      hide At;
      AtThree(s, i, before, dash, rest);
      AtConcat(s, p + 1, after, list);
    }
    AtChar(s, p, dash, 0);
    LineInText(s, i, before + (dash + rest));
    AllInAt(Blank, s, i, before);
    AllInAt(Blank, s, p + 1, after);
  }

  lemma CitationIsList(s: string, i: nat, before: string, dash: string, after: string, id: Id, ns: seq<Next>)
    requires AllIn(Blank, before) && IsCitationDash(dash) && AllIn(Blank, after) && IsId(id) && AreNext(InRun, ns)
    requires At(s, i, Citation(before, dash, after, id, ns))
    requires ListEnds(s, i + |Citation(before, dash, after, id, ns)|)
    ensures var p := i + |before|;
            var a := p + 1 + |after|;
            && a + |ShowList(id, ns)| == i + |Citation(before, dash, after, id, ns)| <= |s|
            && At(s, i, before) && p < |s| && s[p] == dash[0] && At(s, p + 1, after) && ListAt(InRun, s, a, id, ns)
            && BlanksIn(s, i, p) && BlanksIn(s, p + 1, a)
  {
    hide At, ShowList, IsId, AreNext, AllIn, ListEnds, BlanksIn, IsCitationDash;
    CitationIsAt(s, i, before, dash, after, ShowList(id, ns));
  }

  lemma FirstCitation(s: string, i: nat, before: string, dash: string, after: string, id: Id, ns: seq<Next>)
    requires AllIn(Blank, before) && IsCitationDash(dash) && AllIn(Blank, after) && IsId(id) && AreNext(InRun, ns)
    requires At(s, i, Citation(before, dash, after, id, ns))
    requires var e := i + |Citation(before, dash, after, id, ns)|; ListEnds(s, e) && CommentEnds(s, e)
    ensures var p := i + |before|;
            var a := p + 1 + |after|;
            var e := i + |Citation(before, dash, after, id, ns)|;
            && a + |ShowList(id, ns)| == e <= |s| && ListAt(InRun, s, a, id, ns)
            && BlanksIn(s, i, p) && p < |s| && s[p] == dash[0] && BlanksIn(s, p + 1, a)
            && First(TRAILING_CITATION, s, i, e)
  {
    hide *;
    var p := i + |before|;
    var a := p + 1 + |after|;
    var e := a + |ShowList(id, ns)|;
    CitationIsList(s, i, before, dash, after, id, ns);
    LabelParts();
    ListStarts(InRun, s, a, id, ns);
    LettersAreNoBlanks(s, a);
    DashIsDash(dash);
    FirstBlanksTo(s, i, before);
    FirstChar(Among("—,-"), s, p);
    FirstBlanksTo(s, p + 1, after);
    FirstIdRun(s, a, id, ns);
    FirstCommentEnd(s, e);
    var run := Cat(ID_RUN, COMMENT_ENDS_HERE);
    FirstCat(ID_RUN, COMMENT_ENDS_HERE, s, a, e, e);
    FirstCat(BLANKS, run, s, p + 1, a, e);
    FirstCat(DASH, Cat(BLANKS, run), s, p, p + 1, e);
    FirstCat(BLANKS, Cat(DASH, Cat(BLANKS, run)), s, i, p, e);
  }

  /** Before the blanks in front of its dash, the expression does not match. */
  lemma NoCitationBefore(s: string, i: nat, p: nat, a: nat, b: nat)
    requires i <= p < a && p < |s| && IsDash(s[p]) && BlanksIn(s, p + 1, a) && (i == 0 || !IsBlank(s[i - 1]))
    requires IsListBetween(s, a, b) && OnlyIdsIn(s, 0, a, b)
    ensures !MayBeEmpty(CITATION_RULE.drop) && Unmatched(CITATION_RULE, s, 0, i)
  {
    CitationRuleIsGentle();
    forall k | 0 <= k < i ensures MatchAt(CITATION_RULE, s, k) == None {
      if MatchAt(CITATION_RULE, s, k).Some? {
        var m := MatchAt(CITATION_RULE, s, k).value;
        EmptyKeeps(s, k, m.keepEnd);
        var q := CitationFound(s, k, m.end);
        CitedFromDash(s, k, p, a, q);
      }
    }
  }

  /** A match that leads to this list begins no earlier than its blanks. */
  lemma CitedFromDash(s: string, k: nat, p: nat, a: nat, q: nat)
    requires CitedAt(s, k, q) && a <= q <= |s| && k < p < a && IsDash(s[p]) && BlanksIn(s, p + 1, a)
    requires a < |s| && (s[a] == 'M' || s[a] == 'L')
    ensures BlanksIn(s, k, p)
  {
    var p': nat :| BlanksIn(s, k, p') && p' < |s| && IsDash(s[p']) && BlanksIn(s, p' + 1, q);
  }

  lemma CitationMatch(s: string, i: nat, e: nat)
    requires i <= |s| && First(TRAILING_CITATION, s, i, e)
    ensures !MayBeEmpty(CITATION_RULE.drop) && i < e <= |s| && MatchAt(CITATION_RULE, s, i) == Some(Match(i, e))
  {
    CitationRuleIsGentle();
    FirstEmpty(s, i);
    hide First;
    FirstMatch(CITATION_RULE, s, i, i, e);
  }

  lemma CitationBehind(s: string, a: nat, b: nat, from: nat)
    requires OnlyIdsIn(s, 0, a, b) && b <= from
    ensures !MayBeEmpty(CITATION_RULE.drop) && Unmatched(CITATION_RULE, s, from, |s|)
  {
    CitationNone(s, from);
  }

  lemma DashIsLast(s: string, p: nat, a: nat)
    requires p < a <= |s| && IsDash(s[p]) && BlanksIn(s, p + 1, a)
    ensures IsLastBefore(s, a, p)
  {
  }

  /** A citation of IDs where a comment or its line ends is all that the third expression takes out. */
  lemma CitationDropped(s: string, i: nat, before: string, dash: string, after: string, id: Id, ns: seq<Next>)
    requires AllIn(Blank, before) && IsCitationDash(dash) && AllIn(Blank, after) && IsId(id) && AreNext(InRun, ns)
    requires At(s, i, Citation(before, dash, after, id, ns)) && (i == 0 || !IsBlank(s[i - 1]))
    requires var e := i + |Citation(before, dash, after, id, ns)|; ListEnds(s, e) && CommentEnds(s, e)
    requires var a := i + |before| + 1 + |after|; OnlyIdsIn(s, 0, a, a + |ShowList(id, ns)|)
    ensures var a := i + |before| + 1 + |after|;
            var e := i + |Citation(before, dash, after, id, ns)|;
            && !MayBeEmpty(CITATION_RULE.drop) && e <= |s| && Replace(CITATION_RULE, s) == s[..i] + s[e..]
            && a <= |s| && exists p: nat :: p < |s| && IsLastBefore(s, a, p) && s[p] == dash[0]
  {
    hide *;
    var p := i + |before|;
    var a := p + 1 + |after|;
    var e := i + |Citation(before, dash, after, id, ns)|;
    FirstCitation(s, i, before, dash, after, id, ns);
    DashIsDash(dash);
    ListStarts(InRun, s, a, id, ns);
    CitationMatch(s, i, e);
    DashIsLast(s, p, a);
    NoCitationBefore(s, i, p, a, e);
    CitationBehind(s, a, e, e);
    ReplacedOnce(CITATION_RULE, s, i, Match(i, e));
    InsertsNothing();
    assert s[..i] + "" + s[e..] == s[..i] + s[e..];
  }
}
