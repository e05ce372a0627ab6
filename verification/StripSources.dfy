/** Sources on which `stripFile` does not keep its promise, and one on which it does all the same. */
module StripSources {
  import opened Options
  import opened Regex
  import opened Text
  import opened Lexer
  import opened GapText
  import opened Parser
  import opened WorkItemIds
  import opened StripText
  import opened StripEdits
  import opened StripElements
  import opened StripRun
  import opened StripSentinels
  import opened StripKeepsCode
  import opened StripExamples

  // ----- `x`, a comment, `++`, a line break, `y` -----

  /** `++⏎y` */
  function Rest(): string { "+" + ("+" + ("\n" + "y")) }

  function Postfix(comment: string): string { "x" + (comment + Rest()) }

  function RestElems(): seq<Elem> { [Code("+"), Code("+"), Terminator('\n'), Code("y")] }

  function PostfixElems(comment: string): seq<Elem> { [Code("x")] + ([BlockComment(comment)] + RestElems()) }

  /**
   * The code of that source. With a line break in the first gap it reads `x; ++y`, without one
   * `x++; y`: section 12.10.1 of ECMA-262 restricts the postfix operator. The tokens are the same.
   */
  function PostfixItems(gap: Gap): seq<Item> {
    [Item("x", Touching), Item("+", gap), Item("+", Touching), Item("y", Broken)]
  }

  /** The code read so far never puts the lexer into JSX children. */
  predicate ReadsNoJsx(lang: Language, items: seq<Item>) {
    forall k :: 0 <= k <= |items| ==> !lang.goal(items[..k]).JsxChildren?
  }

  lemma ScanOne(c: char, rest: string, goal: Goal)
    requires (c == '+' || c == 'x' || c == 'y' || c == 'b') && !goal.JsxChildren?
    ensures Scan([c] + rest, goal) == Some(Code([c]))
  {
  }

  /** One more character of code at the head of what has been lexed. */
  lemma LexOne(c: char, rest: string, goal: seq<Item> -> Goal, items: seq<Item>, gap: Gap, es: seq<Elem>)
    requires (c == '+' || c == 'x' || c == 'y' || c == 'b') && !goal(items).JsxChildren?
    requires LexFrom(rest, goal, items + [Item([c], gap)], Touching) == Some(es)
    ensures LexFrom([c] + rest, goal, items, gap) == Some([Code([c])] + es)
  {
    ScanOne(c, rest, goal(items));
    LexCons(Code([c]), rest, goal, items, gap);
  }

  lemma LexRest(goal: seq<Item> -> Goal, items: seq<Item>, gap: Gap)
    requires !goal(items).JsxChildren? && !goal(items + [Item("+", gap)]).JsxChildren?
    requires !goal(items + [Item("+", gap)] + [Item("+", Touching)]).JsxChildren?
    ensures LexFrom(Rest(), goal, items, gap) == Some(RestElems())
  {
    hide LexFrom, Scan;
    var one := items + [Item("+", gap)];
    var two := one + [Item("+", Touching)];
    LexNothing(goal, two + [Item("y", Broken)], Touching);
    assert "y" + "" == "y" && [Code("y")] + [] == [Code("y")];
    LexOne('y', "", goal, two, Broken, []);
    LexBreak("y", goal, two, [Code("y")]);
    LexOne('+', "\n" + "y", goal, one, Touching, [Terminator('\n')] + [Code("y")]);
    LexOne('+', "+" + ("\n" + "y"), goal, items, gap, [Code("+")] + ([Terminator('\n')] + [Code("y")]));
    assert [Code("+")] + ([Code("+")] + ([Terminator('\n')] + [Code("y")])) == RestElems();
  }

  lemma LexNothing(goal: seq<Item> -> Goal, items: seq<Item>, gap: Gap)
    ensures LexFrom("", goal, items, gap) == Some([])
  {
  }

  lemma LexBreak(rest: string, goal: seq<Item> -> Goal, items: seq<Item>, es: seq<Elem>)
    requires !goal(items).JsxChildren? && LexFrom(rest, goal, items, Broken) == Some(es)
    ensures LexFrom("\n" + rest, goal, items, Touching) == Some([Terminator('\n')] + es)
  {
    var e := Terminator('\n');
    assert IsLineTerminator('\n') && TextOf(e) == "\n";
    ScanWhite(e, rest, goal(items));
    LexCons(e, rest, goal, items, Touching);
  }

  lemma PostfixGoals(lang: Language, gap: Gap)
    requires ReadsNoJsx(lang, PostfixItems(gap))
    ensures var x := [Item("x", Touching)];
            && [] + x == x && !lang.goal([]).JsxChildren? && !lang.goal(x).JsxChildren?
            && !lang.goal(x + [Item("+", gap)]).JsxChildren?
            && !lang.goal(x + [Item("+", gap)] + [Item("+", Touching)]).JsxChildren?
  {
    var x, items := [Item("x", Touching)], PostfixItems(gap);
    assert items[..0] == [] && items[..1] == x && items[..2] == x + [Item("+", gap)];
    assert items[..3] == x + [Item("+", gap)] + [Item("+", Touching)];
  }

  lemma LexComment(goal: seq<Item> -> Goal, items: seq<Item>, comment: string, rest: string, es: seq<Elem>)
    requires StartsBlockComment(comment) && Close(InBlockComment, comment, 2) == Some(|comment|)
    requires !goal(items).JsxChildren? && LexFrom(rest, goal, items, GapOf(BlockComment(comment))) == Some(es)
    ensures LexFrom(comment + rest, goal, items, Touching) == Some([BlockComment(comment)] + es)
  {
    hide LexFrom, Scan, Close;
    ScanBlockComment(comment, rest, goal(items));
    LexCons(BlockComment(comment), rest, goal, items, Touching);
  }

  lemma LexPostfix(lang: Language, comment: string, gap: Gap)
    requires StartsBlockComment(comment) && Close(InBlockComment, comment, 2) == Some(|comment|)
    requires gap == GapOf(BlockComment(comment)) && ReadsNoJsx(lang, PostfixItems(gap))
    ensures Lex(Postfix(comment), lang.goal) == Some(PostfixElems(comment))
  {
    var x := [Item("x", Touching)];
    PostfixGoals(lang, gap);
    hide LexFrom, Scan, Close, Rest, RestElems, PostfixItems, ReadsNoJsx, StartsBlockComment;
    LexRest(lang.goal, x, gap);
    LexComment(lang.goal, x, comment, Rest(), RestElems());
    LexOne('x', comment + Rest(), lang.goal, [], Touching, [BlockComment(comment)] + RestElems());
  }

  lemma ItemsOfPostfix(comment: string)
    ensures ItemsOf(PostfixElems(comment), Touching) == PostfixItems(GapOf(BlockComment(comment)))
  {
    var gap := GapOf(BlockComment(comment));
    ItemsOfCons(Code("y"), [], Broken);
    ItemsOfCons(Terminator('\n'), [Code("y")], Touching);
    ItemsOfCons(Code("+"), [Terminator('\n'), Code("y")], Touching);
    ItemsOfCons(Code("+"), [Code("+"), Terminator('\n'), Code("y")], gap);
    ItemsOfCons(BlockComment(comment), RestElems(), Touching);
    ItemsOfCons(Code("x"), [BlockComment(comment)] + RestElems(), Touching);
  }

  lemma ItemsOfCons(e: Elem, es: seq<Elem>, gap: Gap)
    ensures ItemsOf([e] + es, gap)
         == if e.Code? then [Item(e.text, gap)] + ItemsOf(es, Touching) else ItemsOf(es, Wider(gap, GapOf(e)))
  {
    assert ([e] + es)[1..] == es;
  }

  lemma PostfixParses(lang: Language, comment: string)
    requires StartsBlockComment(comment) && Close(InBlockComment, comment, 2) == Some(|comment|)
    requires ReadsNoJsx(lang, PostfixItems(GapOf(BlockComment(comment))))
    requires lang.tokens(PostfixItems(GapOf(BlockComment(comment)))).Some?
    ensures Parse(lang, Postfix(comment))
         == Some(Ast(PostfixElems(comment), lang.tokens(PostfixItems(GapOf(BlockComment(comment)))).value))
    ensures ElemsOf(lang, Postfix(comment)) == PostfixElems(comment)
  {
    hide Lex, ItemsOf, PostfixElems, PostfixItems, Postfix, Close;
    LexPostfix(lang, comment, GapOf(BlockComment(comment)));
    ItemsOfPostfix(comment);
  }

  lemma LosesBreak(strip: Strip, t: string, r: string, later: seq<Elem>)
    requires IsComment(Block, t) && HasBreak(t) && !HasBreak(r)
    requires strip(Block, t) == Rewritten(r) && Cleared(t, r) == r
    requires AllProper(later) && later != [] && later[0].Code?
    ensures AllProper([BlockComment(t)] + later) && !BreaksSurvive(strip, [BlockComment(t)] + later, false, false)
  {
    hide HasBreak, IsComment, Cleared;
    var es := [BlockComment(t)] + later;
    assert es[1..] == later;
    assert EditElem(strip, BlockComment(t)) == [BlockComment(r)];
    assert !BreaksSurvive(strip, later, true, false);
  }

  lemma LosesLater(strip: Strip, e: Elem, es: seq<Elem>)
    requires AllProper([e] + es) && AllProper(es) && e.Code? && !BreaksSurvive(strip, es, false, false)
    ensures !BreaksSurvive(strip, [e] + es, false, false)
  {
    assert ([e] + es)[1..] == es;
  }

  lemma PostfixStays(strip: Strip, t: string, r: string)
    requires IsComment(Block, t) && strip(Block, t) == Rewritten(r) && Cleared(t, r) == r
    requires Close(InBlockComment, r, 2) == Some(|r|)
    ensures AllProper(PostfixElems(t)) && AllCloseAtEnd(strip, PostfixElems(t))
  {
    hide Cleared, Close, IsComment;
    var es := PostfixElems(t);
    assert IsLineTerminator('\n');
    assert es[1] == BlockComment(t) && ClosesAtEnd(strip, es[1]);
    forall k | 0 <= k < |es| ensures IsProper(es[k]) && (IsProper(es[k]) ==> ClosesAtEnd(strip, es[k])) { }
  }

  /** The first gap of these elements loses its break. */
  lemma PostfixLosesBreak(strip: Strip, t: string, r: string)
    requires IsComment(Block, t) && HasBreak(t) && !HasBreak(r)
    requires strip(Block, t) == Rewritten(r) && Cleared(t, r) == r && AllProper(PostfixElems(t))
    ensures !BreaksSurvive(strip, PostfixElems(t), false, false)
  {
    hide BreaksSurvive, Cleared, HasBreak, IsComment;
    assert IsLineTerminator('\n') && AllProper(RestElems());
    LosesBreak(strip, t, r, RestElems());
    LosesLater(strip, Code("x"), [BlockComment(t)] + RestElems());
  }

  lemma PostfixHasNoNul(comment: string)
    requires '\0' !in comment
    ensures '\0' !in Postfix(comment)
  {
  }

  lemma PostfixIsFragile(lang: Language, t: string, r: string)
    requires Parse(lang, Postfix(t)).Some? && ElemsOf(lang, Postfix(t)) == PostfixElems(t)
    requires IsComment(Block, t) && HasBreak(t) && !HasBreak(r)
    requires ChangeOf(Block, t) == Rewritten(r) && Cleared(t, r) == r && Close(InBlockComment, r, 2) == Some(|r|)
    ensures NoEarlyClose(lang, Postfix(t)) && !NoLostBreak(lang, Postfix(t))
  {
    hide Postfix, PostfixElems, ChangeOf, Cleared, Close, IsComment, HasBreak, AllCloseAtEnd, BreaksSurvive;
    PostfixStays(ChangeOf, t, r);
    PostfixLosesBreak(ChangeOf, t, r);
  }

  lemma PostfixLoses(lang: Language, t: string, r: string)
    requires Parse(lang, Postfix(t)).Some? && ElemsOf(lang, Postfix(t)) == PostfixElems(t)
    requires IsComment(Block, t) && HasBreak(t) && !HasBreak(r) && '\0' !in t
    requires ChangeOf(Block, t) == Rewritten(r) && Cleared(t, r) == r && Close(InBlockComment, r, 2) == Some(|r|)
    ensures var source := Postfix(t);
            NoEarlyClose(lang, source) && !NoLostBreak(lang, source) && !KeepsCode(lang, source)
  {
    PostfixHasNoNul(t);
    hide Postfix, PostfixElems, ChangeOf, Cleared, Close, IsComment, HasBreak, Parse, MakesNoSentinel, KeepsCode;
    NoSentinelIn(lang, Postfix(t));
    PostfixIsFragile(lang, t, r);
    hide NoEarlyClose, NoLostBreak, SpillsNoCode;
    ClosedSpillsNoCode(lang, Postfix(t));
    NoSpillStandsOut(lang, Postfix(t));
    StripKeepsCodeExactly(lang, Postfix(t));
  }

  lemma BreakIsBroken(t: string)
    requires HasBreak(t)
    ensures GapOf(BlockComment(t)) == Broken
  {
  }

  lemma CommentStarts(t: string)
    requires IsComment(Block, t)
    ensures StartsBlockComment(t)
  {
  }

  /**
   * `x/` `*(LAR-1,⏎2)*` `/++⏎y`: the parenthetical takes the comment's only line break with it. For
   * every language that accepts this code: nothing is spilled, but the promise is broken.
   */
  lemma LineBreakLost(lang: Language, comment: string)
    requires IsSplitCitation(comment)
    requires ReadsNoJsx(lang, PostfixItems(Broken)) && lang.tokens(PostfixItems(Broken)).Some?
    ensures var source := Postfix(comment);
            && Parse(lang, source).Some? && NoEarlyClose(lang, source)
            && !NoLostBreak(lang, source) && !KeepsCode(lang, source)
  {
    hide *;
    var r := "/**/";
    SplitCitationIsFragile(comment, r);
    SplitCitationHasNoNul(comment);
    BreakIsBroken(comment);
    CommentStarts(comment);
    PostfixParses(lang, comment);
    PostfixLoses(lang, comment, r);
  }

  lemma NoSentinelIn(lang: Language, source: string)
    requires Parse(lang, source).Some? && '\0' !in source
    ensures MakesNoSentinel(ChangeOf, source, ElemsOf(lang, source))
  {
    ChangesAreSound();
    UnlexLex(source, lang.goal, [], Touching);
    NoNulNoSentinel(ChangeOf, ElemsOf(lang, source));
  }

  // ----- a comment by itself -----

  /** The language lexes and accepts a source of nothing but comments. */
  predicate AcceptsNoCode(lang: Language) { !lang.goal([]).JsxChildren? && lang.tokens([]).Some? }

  lemma LexOnlyComment(lang: Language, t: string)
    requires AcceptsNoCode(lang) && StartsBlockComment(t) && Close(InBlockComment, t, 2) == Some(|t|)
    ensures Parse(lang, t).Some? && ElemsOf(lang, t) == [BlockComment(t)]
  {
    ScanBlockComment(t, "", lang.goal([]));
    assert TextOf(BlockComment(t)) + "" == t;
    LexCons(BlockComment(t), "", lang.goal, [], Touching);
    LexNothing(lang.goal, [], Wider(Touching, GapOf(BlockComment(t))));
    assert [BlockComment(t)] + [] == [BlockComment(t)];
    ItemsOfCons(BlockComment(t), [], Touching);
  }

  lemma HiddenCloseCloses(s: string, tail: string)
    requires IsHiddenClose(s, tail) && forall k :: 0 <= k < |tail| - 2 ==> !(tail[k] == '*' && tail[k + 1] == '/')
    ensures Close(InBlockComment, s, 2) == Some(|s|)
  {
    HiddenCloseEnds(s, tail);
    assert s[4] == s[4..7][0] && s[5] == s[4..7][1] && s[6] == s[4..7][2];
    forall k | 2 <= k < |s| - 2 ensures !(s[k] == '*' && s[k + 1] == '/') {
      if k >= 11 { assert s[k] == s[11..][k - 11] && s[k + 1] == s[11..][k - 10]; }
    }
    EndsAtEnd(s, 2);
  }

  /** What the early close turns the rest of the comment into. */
  lemma SpillOfTail(r: string, tail: string)
    requires r == "/**/" + tail && StartsCode(tail)
    ensures Spill(r) == tail && Gaps(r) == None
  {
    var a := "/**/";
    EmptyBlockCloses(a);
    ScanBlockComment(a, tail, Div);
    assert r[|a|..] == tail && TextOf(BlockComment(a)) == a;
    ScanStartsCode(tail, "", Div);
    assert tail + "" == tail;
    hide Scan, StartsCode;
    assert Spill(r) == Spill(tail) && Spill(tail) == tail;
    assert Gaps(tail) == None;
  }

  lemma SpillStandsOut(strip: Strip, es: seq<Elem>, t: string, r: string)
    requires IsComment(Block, t) && es == [BlockComment(t)] && strip(Block, t) == Rewritten(r) && Cleared(t, r) == r
    requires StartsCode(Spill(r)) && Gaps(r) == None
    ensures AllProper(es) && AllStandOut(strip, es) && !AllStayGaps(strip, es)
  {
    hide Spill, StartsCode, Cleared, IsComment;
    assert es[1..] == [];
    assert SpillShows(strip, es[0], []);
  }

  lemma ClosesEarly(strip: Strip, es: seq<Elem>, t: string, r: string)
    requires IsComment(Block, t) && es == [BlockComment(t)] && strip(Block, t) == Rewritten(r)
    requires Cleared(t, r) == r && |r| > 4 && r[2] == '*' && r[3] == '/'
    ensures AllProper(es) && !AllCloseAtEnd(strip, es)
  {
    assert Close(InBlockComment, r, 2) == Some(4);
    assert !ClosesAtEnd(strip, es[0]);
  }

  lemma HiddenCloseHasNoNul(s: string, tail: string)
    requires IsHiddenClose(s, tail) && '\0' !in tail
    ensures '\0' !in s
  {
    assert s[4] == s[4..7][0] && s[5] == s[4..7][1] && s[6] == s[4..7][2];
    forall k | 0 <= k < |s| ensures s[k] != '\0' { if k >= 11 { assert s[k] == s[11..][k - 11]; } }
  }

  lemma LoneSpillShows(lang: Language, t: string, r: string)
    requires AcceptsNoCode(lang) && IsComment(Block, t) && Close(InBlockComment, t, 2) == Some(|t|) && '\0' !in t
    requires ChangeOf(Block, t) == Rewritten(r) && Cleared(t, r) == r && |r| > 4 && r[2] == '*' && r[3] == '/'
    requires StartsCode(Spill(r)) && Gaps(r) == None
    ensures Parse(lang, t).Some? && !NoEarlyClose(lang, t) && !KeepsCode(lang, t)
  {
    CommentStarts(t);
    hide IsComment, ChangeOf, Cleared, Close, Lex, Parse, ItemsOf, Gaps, Spill, StartsCode, KeepsCode;
    LexOnlyComment(lang, t);
    ClosesEarly(ChangeOf, [BlockComment(t)], t, r);
    SpillStandsOut(ChangeOf, [BlockComment(t)], t, r);
    hide AllCloseAtEnd, AllStandOut, AllStayGaps, MakesNoSentinel;
    NoSentinelIn(lang, t);
    StripKeepsCodeExactly(lang, t);
  }

  /**
   * `/` `**(LAR-1)/b*` `/`: taking out the ID makes the comment close early, and the rest of it
   * turns into code.
   */
  lemma CommentSpillsIntoCode(lang: Language, comment: string)
    requires AcceptsNoCode(lang) && IsHiddenClose(comment, "b*/")
    ensures Parse(lang, comment).Some? && !NoEarlyClose(lang, comment) && !KeepsCode(lang, comment)
  {
    var tail := "b*/";
    var r := "/**/" + tail;
    assert |tail| == 3 && StartsCode(tail) && r[2] == '*' && r[3] == '/';
    HiddenCloseCloses(comment, tail);
    HiddenCloseHasNoNul(comment, tail);
    hide *;
    HiddenCloseChange(comment, tail);
    SpillOfTail(r, tail);
    LoneSpillShows(lang, comment, r);
  }

  // ----- a comment that spills what comes next -----

  lemma LexTwin(lang: Language, t: string)
    requires StartsBlockComment(t) && Close(InBlockComment, t, 2) == Some(|t|) && !HasBreak(t)
    requires ReadsNoJsx(lang, [Item("b", Spaced)]) && lang.tokens([Item("b", Spaced)]).Some?
    ensures Lex(t + "b", lang.goal) == Some([BlockComment(t)] + [Code("b")])
    ensures Parse(lang, t + "b").Some? && ElemsOf(lang, t + "b") == [BlockComment(t)] + [Code("b")]
    ensures ItemsOf(ElemsOf(lang, t + "b"), Touching) == [Item("b", Spaced)]
  {
    var items := [Item("b", Spaced)];
    assert items[..0] == [];
    hide LexFrom, Scan, Close;
    LexNothing(lang.goal, items, Touching);
    assert "b" + "" == "b" && [Code("b")] + [] == [Code("b")] && [] + items == items;
    LexOne('b', "", lang.goal, [], Spaced, []);
    LexComment(lang.goal, [], t, "b", [Code("b")]);
    ItemsOfCons(Code("b"), [], Spaced);
    ItemsOfCons(BlockComment(t), [Code("b")], Touching);
    assert [Item("b", Spaced)] + ItemsOf([], Touching) == items;
  }

  /** The comment closes, `b` follows, and the rest is a line comment. */
  lemma LexSwapped(lang: Language, s: string)
    requires s == "/**/" + ("b" + "//*/b") && ReadsNoJsx(lang, [Item("b", Spaced)])
    ensures Lex(s, lang.goal) == Some([BlockComment("/**/")] + ([Code("b")] + [LineComment("//*/b")]))
  {
    var a, last, items := "/**/", "//*/b", [Item("b", Spaced)];
    assert items[..0] == [] && items[..1] == items && [] + items == items;
    EmptyBlockCloses(a);
    assert GapOf(BlockComment(a)) == Spaced;
    assert IsComment(Line, last) by { forall k | 0 <= k < |last| ensures !IsLineTerminator(last[k]) { } }
    ScanLineComment(last, "", lang.goal(items));
    hide LexFrom, Scan, Close, IsComment;
    assert last + "" == last && [LineComment(last)] + [] == [LineComment(last)];
    LexNothing(lang.goal, items, Wider(Touching, GapOf(LineComment(last))));
    LexCons(LineComment(last), "", lang.goal, items, Touching);
    LexOne('b', last, lang.goal, [], Spaced, [LineComment(last)]);
    LexComment(lang.goal, [], a, "b" + last, [Code("b")] + [LineComment(last)]);
  }

  lemma EditTwin(strip: Strip, t: string, r: string)
    requires IsSound(strip) && IsComment(Block, t) && strip(Block, t) == Rewritten(r) && Cleared(t, r) == r
    ensures var es := [BlockComment(t)] + [Code("b")];
            AllProper(es) && EditElems(strip, es) == [BlockComment(r)] + [Code("b")]
  {
    hide Cleared, IsComment, IsSound;
    var es := [BlockComment(t)] + [Code("b")];
    assert es[1..] == [Code("b")] && [Code("b")][1..] == [];
    assert EditElems(strip, [Code("b")]) == [Code("b")];
    assert EditElem(strip, BlockComment(t)) == [BlockComment(r)];
  }

  lemma TwinStripped(lang: Language, t: string, r: string)
    requires Parse(lang, t + "b").Some? && '\0' !in t && IsComment(Block, t)
    requires ElemsOf(lang, t + "b") == [BlockComment(t)] + [Code("b")]
    requires ChangeOf(Block, t) == Rewritten(r) && Cleared(t, r) == r
    ensures Stripped(lang, t + "b") == r + "b"
  {
    hide ChangeOf, Cleared, IsComment, Lex, EditElems;
    NoSentinelIn(lang, t + "b");
    ChangesAreSound();
    FilterDropsOnlyEmptied(ChangeOf, lang, t + "b");
    EditTwin(ChangeOf, t, r);
    UnlexCons(BlockComment(r), [Code("b")]);
    UnlexOne(Code("b"));
  }

  lemma TwinSpills(strip: Strip, es: seq<Elem>, t: string, r: string)
    requires AllProper(es) && es == [BlockComment(t)] + [Code("b")]
    requires strip(Block, t) == Rewritten(r) && Cleared(t, r) == r && Gaps(r) == None
    ensures !AllStayGaps(strip, es)
  {
    assert es[0] == BlockComment(t);
  }

  lemma TwinSurvives(lang: Language, t: string, r: string)
    requires IsComment(Block, t) && Close(InBlockComment, t, 2) == Some(|t|) && !HasBreak(t) && '\0' !in t
    requires ChangeOf(Block, t) == Rewritten(r) && Cleared(t, r) == r
    requires Gaps(r) == None && r + "b" == "/**/" + ("b" + "//*/b")
    requires ReadsNoJsx(lang, [Item("b", Spaced)]) && lang.tokens([Item("b", Spaced)]).Some?
    ensures var source := t + "b";
            && Parse(lang, source).Some? && NoLostBreak(lang, source)
            && !SpillsNoCode(lang, source) && KeepsCode(lang, source)
  {
    CommentStarts(t);
    hide ChangeOf, Cleared, Close, Lex, Parse, Gaps, HasBreak, IsComment, ItemsOf, ReadsNoJsx, Stripped;
    LexTwin(lang, t);
    TwinStripped(lang, t, r);
    LexSwapped(lang, r + "b");
    SwappedItems();
    TwinKeepsBreaks(ChangeOf, t, r);
    hide AllStayGaps, BreaksSurvive;
    TwinSpills(ChangeOf, ElemsOf(lang, t + "b"), t, r);
  }

  /**
   * `/` `**(LAR-1)/b//` `*` `/b`: the comment closes early and spills a `b`, and what is left of it
   * then takes in the `b` that was there. Code is spilled, and yet it is the same.
   */
  lemma SpilledTwinKeepsCode(lang: Language, comment: string)
    requires IsHiddenClose(comment, "b//*/")
    requires ReadsNoJsx(lang, [Item("b", Spaced)]) && lang.tokens([Item("b", Spaced)]).Some?
    ensures var source := comment + "b";
            && Parse(lang, source).Some? && NoLostBreak(lang, source)
            && !SpillsNoCode(lang, source) && KeepsCode(lang, source)
  {
    var tail := "b//*/";
    var r := "/**/" + tail;
    assert |tail| == 5 && StartsCode(tail);
    HiddenCloseCloses(comment, tail);
    HiddenCloseHasNoNul(comment, tail);
    HiddenCloseHasNoBreak(comment, tail);
    assert r + "b" == "/**/" + ("b" + "//*/b");
    hide *;
    HiddenCloseChange(comment, tail);
    SpillOfTail(r, tail);
    TwinSurvives(lang, comment, r);
  }

  lemma SwappedItems()
    ensures ItemsOf([BlockComment("/**/")] + ([Code("b")] + [LineComment("//*/b")]), Touching) == [Item("b", Spaced)]
  {
    ItemsOfCons(LineComment("//*/b"), [], Touching);
    ItemsOfCons(Code("b"), [LineComment("//*/b")], Spaced);
    ItemsOfCons(BlockComment("/**/"), [Code("b")] + [LineComment("//*/b")], Touching);
    assert [LineComment("//*/b")] + [] == [LineComment("//*/b")];
  }

  lemma TwinKeepsBreaks(strip: Strip, t: string, r: string)
    requires IsComment(Block, t) && !HasBreak(t) && strip(Block, t) == Rewritten(r) && Cleared(t, r) == r
    ensures var es := [BlockComment(t)] + [Code("b")]; AllProper(es) && BreaksSurvive(strip, es, false, false)
  {
    var es := [BlockComment(t)] + [Code("b")];
    assert es[1..] == [Code("b")] && [Code("b")][1..] == [];
    assert BreaksSurvive(strip, [Code("b")], HasBreak(t), HasBreak(r));
  }

  lemma TwoComments(t: string)
    requires t == "/**/" + "/*bb*/"
    ensures Gaps(t) == Some([BlockComment("/**/"), BlockComment("/*bb*/")]) && !HasBreak(t)
  {
    var a, b := "/**/", "/*bb*/";
    EmptyBlockCloses(a);
    EndsAtEnd(b, 2);
    ScanBlockComment(a, b, Div);
    OneComment(b);
    assert t[|a|..] == b && TextOf(BlockComment(a)) == a;
    assert [BlockComment(a)] + [BlockComment(b)] == [BlockComment(a), BlockComment(b)];
    forall k | 0 <= k < |t| ensures !IsLineTerminator(t[k]) { }
  }

  lemma OneCommentSurvives(strip: Strip, t: string, r: string)
    requires IsComment(Block, t) && !HasBreak(t) && strip(Block, t) == Rewritten(r) && Cleared(t, r) == r
    requires Gaps(r).Some? && MayPrecedeText(Gaps(r).value, "")
    ensures var es := [BlockComment(t)];
            AllProper(es) && AllStayGaps(strip, es) && BreaksSurvive(strip, es, false, false)
  {
    var es := [BlockComment(t)];
    assert es[1..] == [];
    assert BreaksSurvive(strip, es[1..], HasBreak(t), HasBreak(r));
  }

  /**
   * `/` `**(LAR-1)//` `*bb*` `/`: the comment closes early here too, but the rest of it is a comment
   * again, and the promise is kept. Closing early is no proof of harm.
   */
  lemma EarlyCloseMayKeepCode(lang: Language, comment: string)
    requires AcceptsNoCode(lang) && IsHiddenClose(comment, "/*bb*/")
    ensures Parse(lang, comment).Some? && !NoEarlyClose(lang, comment)
    ensures SpillsNoCode(lang, comment) && KeepsCode(lang, comment)
  {
    var tail := "/*bb*/";
    var r := "/**/" + tail;
    assert |tail| == 6;
    HiddenCloseCloses(comment, tail);
    HiddenCloseEnds(comment, tail);
    HiddenCloseHasNoNul(comment, tail);
    HiddenCloseChange(comment, tail);
    HiddenCloseHasNoBreak(comment, tail);
    TwoComments(r);
    hide IsHiddenClose, ChangeOf, Cleared, Close, Parse, HasBreak, Gaps;
    LexOnlyComment(lang, comment);
    ClosesEarly(ChangeOf, [BlockComment(comment)], comment, r);
    OneCommentSurvives(ChangeOf, comment, r);
    NoSentinelIn(lang, comment);
    NoSpillStandsOut(lang, comment);
    StripKeepsCodeExactly(lang, comment);
  }

  lemma HiddenCloseHasNoBreak(s: string, tail: string)
    requires IsHiddenClose(s, tail) && !HasBreak(tail)
    ensures !HasBreak(s)
  {
    assert s[4] == s[4..7][0] && s[5] == s[4..7][1] && s[6] == s[4..7][2];
    forall k | 0 <= k < |s| ensures !IsLineTerminator(s[k]) { if k >= 11 { assert s[k] == s[11..][k - 11]; } }
  }
}
