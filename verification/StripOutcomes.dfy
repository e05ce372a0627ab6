/** What becomes of a comment, told by its text alone. */
module StripOutcomes {
  import opened Options
  import opened Regex
  import opened RegexFirst
  import opened Text
  import opened Lexer
  import opened Parser
  import opened WorkItemIds
  import opened IdText
  import opened IdLists
  import opened StripText
  import opened StripEdits
  import opened StripElements
  import opened StripRun
  import opened StripForms
  import opened StripRules
  import opened StripScope
  import opened StripSentinels
  import opened StripKeepsCode

  // ----- comments that stay as they are -----

  /** The tag by itself on a line keeps every ID of its comment. */
  lemma TaggedIsUnchanged(kind: CommentType, t: string)
    requires IsComment(kind, t) && HasTagLine(ValueOf(kind, t))
    ensures ChangeOf(kind, t) == Unchanged
  {
    ExemptExactly(ValueOf(kind, t));
    hide IsExempt;
  }

  /** White space, a star or none, white space, the tag, white space. */
  function TagLine(a: string, star: string, b: string, c: string): string { a + (star + (b + (TAG + c))) }

  lemma TagLineParts(v: string, i: nat, a: string, star: string, b: string, c: string)
    requires At(v, i, TagLine(a, star, b, c))
    ensures var d := i + |a| + |star| + |b|;
            && At(v, i, a) && At(v, i + |a|, star) && At(v, i + |a| + |star|, b) && At(v, d, TAG)
            && At(v, d + |TAG|, c) && d + |TAG| + |c| == i + |TagLine(a, star, b, c)| <= |v|
  {
    hide At, TAG;
    var named := TAG + c;
    NextAt(v, i, a, star, b, named);
    AtConcat(v, i + |a| + |star| + |b|, TAG, c);
  }

  lemma SpacesStand(v: string, i: nat, t: string)
    requires At(v, i, t) && AllIn(Space, t)
    ensures SpacesIn(v, i, i + |t|)
  {
    AllInAt(Space, v, i, t);
  }

  lemma StarStands(v: string, p: nat, star: string)
    requires At(v, p, star) && (star == "" || star == "*")
    ensures |star| == 0 || (|star| == 1 && p < |v| && v[p] == '*')
  {
    if star != "" { AtChar(v, p, star, 0); }
  }

  /** A line with the tag and nothing else but white space and a star counts, wherever it stands. */
  lemma TagLineCounts(v: string, i: nat, a: string, star: string, b: string, c: string)
    requires AllIn(Space, a) && (star == "" || star == "*") && AllIn(Space, b) && AllIn(Space, c)
    requires At(v, i, TagLine(a, star, b, c)) && IsLineStart(v, i) && IsLineEnd(v, i + |TagLine(a, star, b, c)|)
    ensures HasTagLine(v)
  {
    hide *;
    var p, q, r := i + |a|, i + |a| + |star|, i + |a| + |star| + |b|;
    TagLineParts(v, i, a, star, b, c);
    SpacesStand(v, i, a);
    SpacesStand(v, q, b);
    SpacesStand(v, r + |TAG|, c);
    StarStands(v, p, star);
    TagPartsAre(v, i, p, q, r, r + |TAG| + |c|);
    TagStands(v, i, p, q, r, r + |TAG| + |c|);
  }

  lemma TagPartsAre(v: string, i: nat, a: nat, b: nat, c: nat, e: nat)
    requires SpacesIn(v, i, a) && (b == a || (b == a + 1 && a < |v| && v[a] == '*'))
    requires SpacesIn(v, b, c) && At(v, c, TAG) && SpacesIn(v, c + |TAG|, e)
    ensures TagParts(v, i, a, b, c, e)
  {
  }

  lemma TagStands(v: string, i: nat, a: nat, b: nat, c: nat, e: nat)
    requires IsLineStart(v, i) && IsLineEnd(v, e) && TagParts(v, i, a, b, c, e)
    ensures HasTagLine(v)
  {
    hide IsLineStart, IsLineEnd, TagParts;
    assert TagBetween(v, i, e);
  }

  /** Without a reference, so with suppression markers at most, a comment stays. */
  lemma OutOfScopeIsUnchanged(kind: CommentType, t: string)
    requires IsComment(kind, t) && !HasReference(ValueOf(kind, t))
    ensures ChangeOf(kind, t) == Unchanged
  {
    ReportedExactly(ValueOf(kind, t));
    hide IsExempt, HasReference, ReportableIds;
  }

  /** An ID inside a sentence stays: behind no opening parenthesis, line marker or dash. */
  lemma SentenceIsUnchanged(kind: CommentType, t: string)
    requires IsComment(kind, t)
    requires forall q :: 0 <= q < |t| && IdAt(t, q) ==> !Opened(t, q) && !Labelled(t, q) && !Cited(t, q)
    ensures ChangeOf(kind, t) == Unchanged
  {
    hide IsComment, IsExempt, ReportableIds, MayBeEmpty, MatchAt;
    PureNone(t, 0);
    LabelNone(t, 0);
    CitationNone(t, 0);
    ReplacedNever(PURE_RULE, t);
    ReplacedNever(LABEL_RULE, t);
    ReplacedNever(CITATION_RULE, t);
    hide *;
    AllStay(kind, t);
  }

  lemma AllStay(kind: CommentType, t: string)
    requires IsComment(kind, t) && StripIds(t) == t
    ensures ChangeOf(kind, t) == Unchanged
  {
    hide IsExempt, ReportableIds, StripIds;
  }

  predicate IsKept(kind: CommentType, t: string) { ChangeOf(kind, t) == Unchanged }

  /** A source all of whose comments are kept comes back as it is. */
  lemma KeptSourceIsUnchanged(lang: Language, source: string)
    requires Parse(lang, source).Some?
    requires var es := ElemsOf(lang, source);
             forall k :: 0 <= k < |es| ==>
               && (es[k].LineComment? ==> IsKept(Line, es[k].text))
               && (es[k].BlockComment? ==> IsKept(Block, es[k].text))
    ensures Stripped(lang, source) == source
  {
    var es := ElemsOf(lang, source);
    hide ChangeOf, ElemsOf;
    ChangesAreSound();
    UnlexLex(source, lang.goal, [], Touching);
    LexIsWellPlaced(source, lang.goal, [], Touching);
    assert source[0..] == source;
    CommentsLie(source, es, 0);
    forall k | 0 <= k < |es| ensures !IsEdited(ChangeOf, es[k]) { assert IsProper(es[k]); }
    EditsWhereEdited(ChangeOf, source, es, 0);
    assert |EditsAt(ChangeOf, source, es, 0)| == |SourceEdits(ChangeOf, source, es)|;
  }

  /** A comment with the tag on a line of its own, or without references. */
  ghost predicate IsOutOfScope(kind: CommentType, t: string) {
    IsComment(kind, t) && (HasTagLine(ValueOf(kind, t)) || !HasReference(ValueOf(kind, t)))
  }

  /** `stripFile` gives back a source as it is whose comments are all tagged or without references. */
  lemma OutOfScopeSourceIsUnchanged(lang: Language, source: string)
    requires Parse(lang, source).Some?
    requires var es := ElemsOf(lang, source);
             forall k :: 0 <= k < |es| ==>
               && (es[k].LineComment? ==> IsOutOfScope(Line, es[k].text))
               && (es[k].BlockComment? ==> IsOutOfScope(Block, es[k].text))
    ensures Stripped(lang, source) == source
  {
    hide ElemsOf, ChangeOf, Parse, HasTagLine, HasReference, Stripped, IsComment;
    forall kind, t | IsOutOfScope(kind, t) ensures IsKept(kind, t) {
      if HasTagLine(ValueOf(kind, t)) { TaggedIsUnchanged(kind, t); } else { OutOfScopeIsUnchanged(kind, t); }
    }
    KeptSourceIsUnchanged(lang, source);
  }

  // ----- punctuation left behind -----

  /** A line begins with a marker, and past spaces comes punctuation and another space. */
  ghost predicate StrayAt(s: string, k: nat) {
    exists r: nat, a: nat, b: nat, p: nat :: StrayParts(s, k, r, a, b, p)
  }

  predicate StrayParts(s: string, k: nat, r: nat, a: nat, b: nat, p: nat) {
    && LineBegins(s, k, r) && SpacesIn(s, r, a)
    && ((At(s, a, "//") && b == a + 2) || (At(s, a, "*") && b == a + 1))
    && SpacesIn(s, b, p) && p + 1 < |s| && s[p] in ".,;:" && IsSpace(s[p + 1])
  }

  const MARKS: Re := Or(Word("//"), Chr('*'))

  lemma PunctuationParts()
    ensures PUNCTUATION_RULE.keep == Cat(AT_LINE, Cat(SPACES, MARKS)) && PUNCTUATION_RULE.insert == " "
    ensures PUNCTUATION_RULE.drop == Cat(SPACES, Cat(Ch(Among(".,;:")), Some1(Ch(Space))))
    ensures !MayBeEmpty(PUNCTUATION_RULE.drop)
  {
  }

  lemma MarksFound(s: string, a: nat, b: nat)
    requires a <= |s| && b in Ends(MARKS, s, a)
    ensures (At(s, a, "//") && b == a + 2) || (At(s, a, "*") && b == a + 1)
  {
    OrUnfolds(Word("//"), Chr('*'), s, a);
    if b in Ends(Word("//"), s, a) { WordFound("//", s, a, b); } else { CharFound(One('*'), s, a, b); }
  }

  lemma KeepFound(s: string, k: nat, b: nat) returns (r: nat, a: nat)
    requires k <= |s| && b in Ends(Cat(AT_LINE, Cat(SPACES, MARKS)), s, k)
    ensures LineBegins(s, k, r) && SpacesIn(s, r, a) && b <= |s|
    ensures (At(s, a, "//") && b == a + 2) || (At(s, a, "*") && b == a + 1)
  {
    hide Ends, AT_LINE, SPACES, MARKS, At, LineBegins, SpacesIn;
    r := CatSplits(AT_LINE, Cat(SPACES, MARKS), s, k, b);
    AtLineFound(s, k, r);
    a := CatSplits(SPACES, MARKS, s, r, b);
    SpacesHold(s, r, a);
    MarksFound(s, a, b);
  }

  lemma DropFound(s: string, b: nat, e: nat) returns (p: nat)
    requires b <= |s| && e in Ends(Cat(SPACES, Cat(Ch(Among(".,;:")), Some1(Ch(Space)))), s, b)
    ensures SpacesIn(s, b, p) && p + 1 < |s| && s[p] in ".,;:" && IsSpace(s[p + 1])
  {
    p := CatSplits(SPACES, Cat(Ch(Among(".,;:")), Some1(Ch(Space))), s, b, e);
    SpacesHold(s, b, p);
    var m := CatSplits(Ch(Among(".,;:")), Some1(Ch(Space)), s, p, e);
    CharFound(Among(".,;:"), s, p, m);
    var d := CatSplits(Ch(Space), Many(Ch(Space)), s, m, e);
    CharFound(Space, s, m, d);
  }

  lemma StrayFound(s: string, k: nat)
    requires k <= |s| && !MayBeEmpty(PUNCTUATION_RULE.drop) && MatchAt(PUNCTUATION_RULE, s, k).Some?
    ensures StrayAt(s, k)
  {
    PunctuationParts();
    var m := MatchAt(PUNCTUATION_RULE, s, k).value;
    hide MatchAt, Ends, MayBeEmpty;
    var r, a := KeepFound(s, k, m.keepEnd);
    var p := DropFound(s, m.keepEnd, m.end);
    assert StrayParts(s, k, r, a, m.keepEnd, p);
  }

  lemma NoStray(s: string, from: nat, to: nat)
    requires to <= |s| && forall k :: from <= k < to ==> !StrayAt(s, k)
    ensures !MayBeEmpty(PUNCTUATION_RULE.drop) && Unmatched(PUNCTUATION_RULE, s, from, to)
  {
    PunctuationParts();
    hide MayBeEmpty, MatchAt, StrayAt;
    forall k | from <= k < to ensures MatchAt(PUNCTUATION_RULE, s, k) == None {
      if MatchAt(PUNCTUATION_RULE, s, k).Some? { StrayFound(s, k); }
    }
  }

  /** Text without stray punctuation is not repaired. */
  lemma NothingToRepair(s: string)
    requires forall k :: 0 <= k < |s| ==> !StrayAt(s, k)
    ensures RepairPunctuation(s) == s
  {
    NoStray(s, 0, |s|);
    hide MayBeEmpty, MatchAt, StrayAt, Unmatched;
    ReplacedNever(PUNCTUATION_RULE, s);
  }

  lemma FirstMarks(s: string, a: nat, mark: string)
    requires (mark == "//" || mark == "*") && At(s, a, mark)
    ensures First(MARKS, s, a, a + |mark|) && !IsSpace(s[a])
  {
    AtChar(s, a, mark, 0);
    if mark == "//" {
      FirstWord("//", s, a);
    } else {
      WordDiffers("//", s, a, 0);
      FirstChar(One('*'), s, a);
    }
    hide First, Fails;
    FirstOr(Word("//"), Chr('*'), s, a, a + |mark|);
  }

  lemma FirstSpacesTo(s: string, i: nat, spaces: string)
    requires AllIn(Space, spaces) && At(s, i, spaces) && (i + |spaces| < |s| ==> !IsSpace(s[i + |spaces|]))
    ensures First(SPACES, s, i, i + |spaces|)
    ensures spaces != "" ==> First(Some1(Ch(Space)), s, i, i + |spaces|)
  {
    AllInAt(Space, s, i, spaces);
    FirstRun(Space, s, i, i + |spaces|);
    if spaces != "" { FirstRunOfSome(Space, s, i, i + |spaces|); }
  }

  predicate IsPunctuationMark(punct: string) { punct == "." || punct == "," || punct == ";" || punct == ":" }

  lemma PunctuationIs(punct: string)
    requires IsPunctuationMark(punct)
    ensures |punct| == 1 && In(Among(".,;:"), punct[0]) && !IsSpace(punct[0])
  {
  }

  /** The marker of a line with all before it, then the punctuation among spaces. */
  lemma FirstStray(s: string, k: nat, feed: string, indent: string, mark: string,
                   gap: string, punct: string, spaces: string)
    requires IsLineFeed(k, feed) && AllIn(Space, indent) && (mark == "//" || mark == "*")
    requires AllIn(Space, gap) && IsPunctuationMark(punct) && AllIn(Space, spaces) && spaces != ""
    requires At(s, k, LineUpTo(feed, indent, mark, ""))
    requires var b := k + |LineUpTo(feed, indent, mark, "")|;
             var e := b + |gap + (punct + spaces)|;
             At(s, b, gap + (punct + spaces)) && (e < |s| ==> !IsSpace(s[e]))
    ensures var b := k + |LineUpTo(feed, indent, mark, "")|;
            var e := b + |gap + (punct + spaces)|;
            && k <= |s| && b <= |s| && First(PUNCTUATION_RULE.keep, s, k, b) && First(PUNCTUATION_RULE.drop, s, b, e)
  {
    hide *;
    var r := k + |feed|;
    var a := r + |indent|;
    var b := a + |mark|;
    var p := b + |gap|;
    LineParts(s, k, feed, indent, mark, "");
    AtThree(s, b, gap, punct, spaces);
    PunctuationIs(punct);
    AtChar(s, p, punct, 0);
    PunctuationParts();
    LineIsLine(s, k, feed);
    FirstAtLine(s, k, feed);
    FirstMarks(s, a, mark);
    FirstSpacesTo(s, r, indent);
    FirstCat(SPACES, MARKS, s, r, a, b);
    FirstCat(AT_LINE, Cat(SPACES, MARKS), s, k, r, b);
    var e := p + 1 + |spaces|;
    FirstSpacesTo(s, b, gap);
    FirstChar(Among(".,;:"), s, p);
    FirstSpacesTo(s, p + 1, spaces);
    FirstCat(Ch(Among(".,;:")), Some1(Ch(Space)), s, p, p + 1, e);
    FirstCat(SPACES, Cat(Ch(Among(".,;:")), Some1(Ch(Space))), s, b, p, e);
  }

  /** Punctuation left right behind a marker goes, with the spaces around it, for one space. */
  lemma PunctuationDropped(s: string, k: nat, feed: string, indent: string, mark: string,
                           gap: string, punct: string, spaces: string)
    requires IsLineFeed(k, feed) && AllIn(Space, indent) && (mark == "//" || mark == "*")
    requires AllIn(Space, gap) && IsPunctuationMark(punct) && AllIn(Space, spaces) && spaces != ""
    requires At(s, k, LineUpTo(feed, indent, mark, ""))
    requires var b := k + |LineUpTo(feed, indent, mark, "")|;
             var e := b + |gap + (punct + spaces)|;
             && At(s, b, gap + (punct + spaces)) && (e < |s| ==> !IsSpace(s[e]))
             && (forall j :: 0 <= j < k ==> !StrayAt(s, j)) && (forall j :: e <= j < |s| ==> !StrayAt(s, j))
    ensures var b := k + |LineUpTo(feed, indent, mark, "")|;
            var e := b + |gap + (punct + spaces)|;
            e <= |s| && RepairPunctuation(s) == s[..b] + " " + s[e..]
  {
    var b := k + |LineUpTo(feed, indent, mark, "")|;
    var e := b + |gap + (punct + spaces)|;
    RepairIs(s);
    hide *;
    FirstStray(s, k, feed, indent, mark, gap, punct, spaces);
    PunctuationParts();
    FirstMatch(PUNCTUATION_RULE, s, k, b, e);
    NoStray(s, 0, k);
    NoStray(s, e, |s|);
    ReplacedOnce(PUNCTUATION_RULE, s, k, Match(b, e));
  }

  lemma RepairIs(s: string)
    ensures !MayBeEmpty(PUNCTUATION_RULE.drop) && RepairPunctuation(s) == Replace(PUNCTUATION_RULE, s)
  {
  }

  // ----- IDs in scope -----

  /** Behind a list, and behind its first number, no word goes on. */
  predicate IsWordEnd(s: string, e: nat, ns: seq<Next>) { ns == [] && e < |s| ==> !IsWordChar(s[e]) }

  lemma NoStarInList(t: string, a: nat, b: nat, p: nat)
    requires IsListBetween(t, a, b) && p < |t| && (t[p] == '*' || (t[p] == '/' && p == |t| - 1))
    ensures t[p] == '*' ==> p < a || b <= p
    ensures p != a
  {
  }

  lemma ListIsInside(kind: CommentType, t: string, a: nat, b: nat)
    requires IsComment(kind, t) && IsListBetween(t, a, b)
    ensures 2 <= a && b <= 2 + |ValueOf(kind, t)|
  {
    if kind.Block? {
      NoStarInList(t, a, b, |t| - 2);
      NoStarInList(t, a, b, |t| - 1);
    }
  }

  lemma ValueIs(kind: CommentType, t: string)
    requires IsComment(kind, t)
    ensures 2 + |ValueOf(kind, t)| <= |t| && ValueOf(kind, t) == t[2..2 + |ValueOf(kind, t)|]
  {
  }

  lemma Shifted(t: string, n: nat, a: nat, m: nat)
    requires 2 <= a && a + m <= n <= |t|
    ensures t[2..n][a - 2..a - 2 + m] == t[a..a + m]
  {
    var x, y := t[2..n][a - 2..a - 2 + m], t[a..a + m];
    forall k | 0 <= k < m ensures x[k] == y[k] { }
  }

  lemma ValueAt(kind: CommentType, t: string, a: nat, u: string)
    requires IsComment(kind, t) && 2 <= a && a + |u| <= 2 + |ValueOf(kind, t)|
    ensures At(ValueOf(kind, t), a - 2, u) <==> At(t, a, u)
  {
    ValueIs(kind, t);
    hide IsComment, ValueOf;
    Shifted(t, 2 + |ValueOf(kind, t)|, a, |u|);
  }

  /** A comment that cites IDs in one place, not as part of a word, is in scope. */
  lemma ListIsReported(kind: CommentType, t: string, in_: Kind, a: nat, id: Id, ns: seq<Next>)
    requires IsComment(kind, t) && ListAt(in_, t, a, id, ns)
    requires a > 0 ==> a <= |t| && !IsWordChar(t[a - 1])
    requires IsWordEnd(t, a + |ShowList(id, ns)|, ns)
    ensures ReportableIds(ValueOf(kind, t)) != []
  {
    var v := ValueOf(kind, t);
    ListStarts(in_, t, a, id, ns);
    ListIsInside(kind, t, a, a + |ShowList(id, ns)|);
    ListCounts(kind, t, in_, a, id, ns);
    ReportedExactly(v);
    hide *;
    RefersSomewhere(v, a - 2, id.name, id.digits);
  }

  lemma RefersSomewhere(v: string, k: nat, name: string, digits: string)
    requires CountsAt(v, k, name, digits, "")
    ensures HasReference(v)
  {
  }

  /** The first ID of the list counts in the comment. */
  lemma ListCounts(kind: CommentType, t: string, in_: Kind, a: nat, id: Id, ns: seq<Next>)
    requires IsComment(kind, t) && ListAt(in_, t, a, id, ns) && 2 <= a
    requires a + |ShowList(id, ns)| <= 2 + |ValueOf(kind, t)|
    requires a <= |t| && !IsWordChar(t[a - 1]) && IsWordEnd(t, a + |ShowList(id, ns)|, ns)
    ensures CountsAt(ValueOf(kind, t), a - 2, id.name, id.digits, "")
  {
    hide *;
    FirstOfListCounts(in_, t, a, id, ns);
    CountsInValue(kind, t, a, id.name, id.digits);
  }

  lemma AfterFirst(in_: Kind, t: string, e: nat, ns: seq<Next>)
    requires AreNext(in_, ns) && At(t, e, ShowMore(ns)) && ListEnds(t, e + |ShowMore(ns)|)
    requires IsWordEnd(t, e + |ShowMore(ns)|, ns)
    ensures (e < |t| ==> !IsWordChar(t[e])) && !At(t, e, "-ok")
  {
    NextIsClosed(in_, t, e, ns);
    hide ShowNext, IsNext, At;
    if ns != [] {
      AtConcat(t, e, ShowNext(ns[0]), ShowMore(ns[1..]));
      assert IsNext(in_, ns[0]);
      NextStarts(in_, t, e, ns[0]);
    }
  }

  lemma CountsIs(t: string, a: nat, name: string, digits: string)
    requires IsName(name) && IsNumber(digits) && 0 < a <= |t| && !IsWordChar(t[a - 1])
    requires At(t, a, name + "-") && At(t, a + |name| + 1, digits)
    requires var e := a + |name| + 1 + |digits|; (e < |t| ==> !IsWordChar(t[e])) && !At(t, e, "-ok")
    ensures CountsAt(t, a, name, digits, "")
  {
    var first := name + "-";
    assert |first| == |name| + 1 && digits + "" == digits;
    hide At, IsName;
    AtConcat(t, a, first, digits);
  }

  lemma FirstOfListCounts(in_: Kind, t: string, a: nat, id: Id, ns: seq<Next>)
    requires ListAt(in_, t, a, id, ns) && 2 <= a <= |t| && !IsWordChar(t[a - 1])
    requires IsWordEnd(t, a + |ShowList(id, ns)|, ns)
    ensures CountsAt(t, a, id.name, id.digits, "") && !At(t, a + |id.name| + 1 + |id.digits|, "-ok")
    ensures a + |id.name| + 1 + |id.digits| <= a + |ShowList(id, ns)|
  {
    hide *;
    ListParts(in_, t, a, id, ns);
    AfterFirst(in_, t, a + |id.name| + 1 + |id.digits|, ns);
    CountsIs(t, a, id.name, id.digits);
  }

  lemma CountsInValue(kind: CommentType, t: string, a: nat, name: string, digits: string)
    requires IsComment(kind, t) && 2 <= a && CountsAt(t, a, name, digits, "")
    requires a + |name| + 1 + |digits| <= 2 + |ValueOf(kind, t)| && !At(t, a + |name| + 1 + |digits|, "-ok")
    ensures CountsAt(ValueOf(kind, t), a - 2, name, digits, "")
  {
    var v := ValueOf(kind, t);
    var u := (name + "-") + (digits + "");
    var e := a + |u|;
    assert |u| == |name| + 1 + |digits|;
    ValueIs(kind, t);
    ValueAt(kind, t, a, u);
    if e + 3 <= 2 + |v| { ValueAt(kind, t, e, "-ok"); }
    hide IsComment, ValueOf, IsName, AllIn;
    assert forall k :: 0 <= k < |v| ==> v[k] == t[k + 2];
  }

  // ----- what becomes of a comment that cites IDs in one place -----

  /** A line comment with nothing but spaces behind its slashes goes; any other comment gets its new text. */
  function Becomes(kind: CommentType, r: string): Change {
    if kind.Line? && forall k :: 2 <= k < |r| ==> IsSpace(r[k]) then Removed else Rewritten(r)
  }

  ghost predicate HasNoStray(r: string) { forall k :: 0 <= k < |r| ==> !StrayAt(r, k) }

  lemma BehindSlashes(r: string)
    requires IsComment(Line, r)
    ensures IsAllSpace(WithoutSlashes(r)) <==> forall k :: 2 <= k < |r| ==> IsSpace(r[k])
  {
    assert WithoutSlashes(r) == r[2..];
    if IsAllSpace(r[2..]) {
      forall k | 2 <= k < |r| ensures IsSpace(r[k]) { assert r[2..][k - 2] == r[k]; }
    }
  }

  lemma ChangeIs(kind: CommentType, t: string, r: string)
    requires IsComment(kind, t) && !HasTagLine(ValueOf(kind, t)) && ReportableIds(ValueOf(kind, t)) != []
    requires StripIds(t) == r && r != t
    ensures ChangeOf(kind, t) == Becomes(kind, RepairPunctuation(r))
  {
    ExemptExactly(ValueOf(kind, t));
    StripKeepsComment(kind, t);
    hide IsExempt, ReportableIds, StripIds, RepairPunctuation, HasTagLine, IsComment;
    if kind.Line? { BehindSlashes(RepairPunctuation(r)); }
    hide IsAllSpace, WithoutSlashes;
  }

  lemma StripIs(t: string, a: string, b: string, c: string)
    requires !MayBeEmpty(PURE_RULE.drop) && !MayBeEmpty(LABEL_RULE.drop) && !MayBeEmpty(CITATION_RULE.drop)
    requires Replace(PURE_RULE, t) == a && Replace(LABEL_RULE, a) == b && Replace(CITATION_RULE, b) == c
    ensures StripIds(t) == c
  {
  }

  lemma RulesMayNotBeEmpty()
    ensures !MayBeEmpty(PURE_RULE.drop) && !MayBeEmpty(LABEL_RULE.drop) && !MayBeEmpty(CITATION_RULE.drop)
  {
    PureRuleIsGentle();
    LabelRuleIsGentle();
    CitationRuleIsGentle();
  }

  /** The three rules in turn, when the first takes out the only IDs. */
  lemma FirstRuleStrips(t: string, r: string)
    requires !MayBeEmpty(PURE_RULE.drop) && Replace(PURE_RULE, t) == r && NoIds(r)
    ensures StripIds(t) == r
  {
    hide *;
    RulesMayNotBeEmpty();
    StripRulesAre();
    NoIdsNoChange(LABEL_RULE, r);
    NoIdsNoChange(CITATION_RULE, r);
    StripIs(t, r, r, r);
  }

  lemma StripRulesAre()
    ensures IsStripRule(PURE_RULE) && IsStripRule(LABEL_RULE) && IsStripRule(CITATION_RULE)
  {
  }

  /** Behind a last character that opens nothing, no parenthetical is found in the text at all. */
  lemma NoParenthetical(t: string, a: nat, b: nat, p: nat)
    requires IsListBetween(t, a, b) && OnlyIdsIn(t, 0, a, b) && IsLastBefore(t, a, p)
    requires t[p] == '*' || t[p] == '/' || IsDash(t[p])
    ensures !MayBeEmpty(PURE_RULE.drop) && Replace(PURE_RULE, t) == t
  {
    NotSee(t, p);
    BehindChar(t, a, p);
    forall q | 0 <= q < |t| && IdAt(t, q) ensures !Opened(t, q) {
      if q != a { InsideList(t, a, b, q); }
    }
    hide *;
    PureNone(t, 0);
    ReplacedNever(PURE_RULE, t);
  }

  lemma NotSee(t: string, p: nat)
    requires p < |t| && (t[p] == '*' || t[p] == '/' || IsDash(t[p]))
    ensures t[p] != '(' && !(p >= 3 && At(t, p - 3, "(see"))
  {
    if p >= 3 && At(t, p - 3, "(see") { AtChar(t, p - 3, "(see", 3); }
  }

  lemma NoLabel(t: string, a: nat, b: nat, p: nat)
    requires IsListBetween(t, a, b) && OnlyIdsIn(t, 0, a, b) && IsLastBefore(t, a, p) && IsDash(t[p])
    ensures !MayBeEmpty(LABEL_RULE.drop) && Replace(LABEL_RULE, t) == t
  {
    assert t[p] != '*' && t[p] != '/';
    BehindChar(t, a, p);
    forall q | 0 <= q < |t| && IdAt(t, q) ensures !Labelled(t, q) {
      if q != a { InsideList(t, a, b, q); }
    }
    hide *;
    LabelNone(t, 0);
    ReplacedNever(LABEL_RULE, t);
  }

  lemma LastIsNoWord(t: string, a: nat, p: nat)
    requires IsLastBefore(t, a, p) && !IsWordChar(t[p])
    ensures 0 < a <= |t| && !IsWordChar(t[a - 1])
  {
  }

  lemma MarksAreNoWord(c: char)
    requires c == '*' || c == '/' || IsDash(c) || c == '('
    ensures !IsWordChar(c)
  {
  }

  /**
   * A comment whose only IDs hang behind a dash or comma at the end of it, or of one of its lines,
   * loses them with the dash and the blanks before it, and nothing else.
   */
  lemma CitationGone(kind: CommentType, t: string, i: nat, before: string, dash: string, after: string,
                     id: Id, ns: seq<Next>)
    requires IsComment(kind, t) && !HasTagLine(ValueOf(kind, t))
    requires AllIn(Blank, before) && IsCitationDash(dash) && AllIn(Blank, after) && IsId(id) && AreNext(InRun, ns)
    requires At(t, i, Citation(before, dash, after, id, ns)) && (i == 0 || !IsBlank(t[i - 1]))
    requires var e := i + |Citation(before, dash, after, id, ns)|;
             ListEnds(t, e) && CommentEnds(t, e) && IsWordEnd(t, e, ns)
    requires var a := i + |before| + 1 + |after|; OnlyIdsIn(t, 0, a, a + |ShowList(id, ns)|)
    ensures var e := i + |Citation(before, dash, after, id, ns)|;
            e <= |t| && var r := t[..i] + t[e..];
                        && ChangeOf(kind, t) == Becomes(kind, RepairPunctuation(r))
                        && (HasNoStray(r) ==> ChangeOf(kind, t) == Becomes(kind, r))
  {
    hide *;
    var a := i + |before| + 1 + |after|;
    var e := i + |Citation(before, dash, after, id, ns)|;
    CitationDropped(t, i, before, dash, after, id, ns);
    FirstCitation(t, i, before, dash, after, id, ns);
    ListStarts(InRun, t, a, id, ns);
    DashIsDash(dash);
    var p: nat :| p < |t| && IsLastBefore(t, a, p) && t[p] == dash[0];
    MarksAreNoWord(t[p]);
    LastIsNoWord(t, a, p);
    NoParenthetical(t, a, e, p);
    NoLabel(t, a, e, p);
    var r := t[..i] + t[e..];
    RulesMayNotBeEmpty();
    StripIs(t, t, t, r);
    ListIsReported(kind, t, InRun, a, id, ns);
    assert |r| < |t|;
    ChangeIs(kind, t, r);
    NoStrayNoRepair(r);
  }

  lemma NoStrayNoRepair(r: string)
    ensures HasNoStray(r) ==> RepairPunctuation(r) == r
  {
    hide StrayAt, RepairPunctuation;
    if HasNoStray(r) { NothingToRepair(r); }
  }

  /**
   * A comment whose only IDs label one of its lines, behind the marker, loses them with their
   * separator and the blanks behind it; the marker and what the label stood for stay.
   */
  lemma LabelGone(kind: CommentType, t: string, i: nat, feed: string, indent: string, marker: string, gap: string,
                  id: Id, ns: seq<Next>, before: string, sep: string, after: string)
    requires IsComment(kind, t) && !HasTagLine(ValueOf(kind, t))
    requires IsLineFeed(i, feed) && AllIn(Blank, indent) && IsMarker(marker) && AllIn(Blank, gap)
    requires IsId(id) && AreNext(InRun, ns) && AllIn(Blank, before) && IsLabelSeparator(sep) && AllIn(Blank, after)
    requires At(t, i, LineUpTo(feed, indent, marker, gap))
    requires var q := i + |LineUpTo(feed, indent, marker, gap)|;
             var e := q + |Label(id, ns, before, sep, after)|;
             && At(t, q, Label(id, ns, before, sep, after)) && !At(t, q + |ShowList(id, ns)|, "-ok")
             && OnlyIdsIn(t, 0, q, q + |ShowList(id, ns)|) && (e < |t| ==> !IsBlank(t[e]))
             && NoIds(t[..q] + t[if e <= |t| then e else |t|..])
    ensures var q := i + |LineUpTo(feed, indent, marker, gap)|;
            var e := q + |Label(id, ns, before, sep, after)|;
            e <= |t| && var r := t[..q] + t[e..];
                        && ChangeOf(kind, t) == Becomes(kind, RepairPunctuation(r))
                        && (HasNoStray(r) ==> ChangeOf(kind, t) == Becomes(kind, r))
  {
    hide *;
    var q := i + |LineUpTo(feed, indent, marker, gap)|;
    var e := q + |Label(id, ns, before, sep, after)|;
    LabelDropped(t, i, feed, indent, marker, gap, id, ns, before, sep, after);
    FirstLeadingLabel(t, q, id, ns, before, sep, after);
    ListStarts(InRun, t, q, id, ns);
    LabelWordEnds(t, q, id, ns, before, sep, after);
    LabelIsLonger(id, ns, before, sep, after);
    var p: nat :| p < |t| && IsLastBefore(t, q, p) && (t[p] == '*' || t[p] == '/');
    MarksAreNoWord(t[p]);
    LastIsNoWord(t, q, p);
    NoParenthetical(t, q, q + |ShowList(id, ns)|, p);
    var r := t[..q] + t[e..];
    RulesMayNotBeEmpty();
    StripRulesAre();
    NoIdsNoChange(CITATION_RULE, r);
    StripIs(t, t, r, r);
    ListIsReported(kind, t, InRun, q, id, ns);
    assert |r| < |t|;
    ChangeIs(kind, t, r);
    NoStrayNoRepair(r);
  }

  lemma LabelWordEnds(s: string, q: nat, id: Id, ns: seq<Next>, before: string, sep: string, after: string)
    requires IsId(id) && AreNext(InRun, ns) && AllIn(Blank, before) && IsLabelSeparator(sep) && AllIn(Blank, after)
    requires At(s, q, Label(id, ns, before, sep, after)) && !At(s, q + |ShowList(id, ns)|, "-ok")
    ensures IsWordEnd(s, q + |ShowList(id, ns)|, ns)
  {
    var b := q + |ShowList(id, ns)|;
    LabelIsList(s, q, id, ns, before, sep, after);
    hide ShowList, At, ListAt;
    if before != "" {
      AtChar(s, b, before, 0);
      assert In(Blank, before[0]);
    }
  }

  /** A comment whose only IDs stand in parentheses of their own loses these with the blanks before them. */
  lemma ParentheticalGone(kind: CommentType, t: string, i: nat, blanks: string, see: string, id: Id, ns: seq<Next>)
    requires IsComment(kind, t) && !HasTagLine(ValueOf(kind, t))
    requires AllIn(Blank, blanks) && IsSee(see) && IsId(id) && AreNext(InParentheses, ns)
    requires At(t, i, Parenthetical(blanks, see, id, ns)) && (i == 0 || !IsBlank(t[i - 1]))
    requires var a := i + |blanks| + 1 + |see|; OnlyIdsIn(t, 0, a, a + |ShowList(id, ns)|)
    requires var e := i + |Parenthetical(blanks, see, id, ns)|; NoIds(t[..i] + t[if e <= |t| then e else |t|..])
    ensures var e := i + |Parenthetical(blanks, see, id, ns)|;
            e <= |t| && var r := t[..i] + t[e..];
                        && ChangeOf(kind, t) == Becomes(kind, RepairPunctuation(r))
                        && (HasNoStray(r) ==> ChangeOf(kind, t) == Becomes(kind, r))
  {
    hide *;
    var a := i + |blanks| + 1 + |see|;
    var e := i + |Parenthetical(blanks, see, id, ns)|;
    ParentheticalDropped(t, i, blanks, see, id, ns);
    FirstParenthetical(t, i, blanks, see, id, ns);
    var r := t[..i] + t[e..];
    FirstRuleStrips(t, r);
    OpeningIsNoWord(t, i + |blanks|, a);
    ClosingIsNoWord(t, i, blanks, see, id, ns);
    ListIsReported(kind, t, InParentheses, a, id, ns);
    assert |r| < |t|;
    ChangeIs(kind, t, r);
    NoStrayNoRepair(r);
  }

  lemma OpeningIsNoWord(t: string, p: nat, a: nat)
    requires OpensAt(t, p, a)
    ensures 0 < a <= |t| && !IsWordChar(t[a - 1])
  {
  }

  lemma ClosingIsNoWord(t: string, i: nat, blanks: string, see: string, id: Id, ns: seq<Next>)
    requires At(t, i, Parenthetical(blanks, see, id, ns))
    ensures IsWordEnd(t, i + |blanks| + 1 + |see| + |ShowList(id, ns)|, ns)
  {
    hide At, ShowList;
    ParentheticalParts(t, i, blanks, see, ShowList(id, ns));
  }
}
