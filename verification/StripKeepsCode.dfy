/**
 * Lexing what `stripFile` returns: there is the same code with the same gaps exactly when no gap
 * loses all its line breaks and what is left of every rewritten block comment lexes to comments and
 * white space (it does when the comment does not close early). That holds wherever code that a
 * comment does leave begins unlike the code it comes before.
 */
module StripKeepsCode {
  import opened Options
  import opened Regex
  import opened Text
  import opened Lexer
  import opened GapText
  import opened Parser
  import opened WorkItemIds
  import opened StripText
  import opened StripEdits
  import opened StripElements
  import opened StripRun
  import opened StripSentinels

  // ----- what is left of a comment is a comment -----

  lemma {:induction false} JoinEdges(ls: seq<string>)
    requires |ls| >= 1
    ensures ls[0] <= Join(ls)
    ensures |ls| >= 2 ==> |Join(ls)| > |ls[0]| + |ls[|ls| - 1]|
    ensures |Join(ls)| >= |ls[|ls| - 1]|
    ensures Join(ls)[|Join(ls)| - |ls[|ls| - 1]|..] == ls[|ls| - 1]
  {
    if |ls| > 1 {
      JoinEdges(ls[1..]);
      var rest, last := Join(ls[1..]), ls[|ls| - 1];
      assert ls[1..][|ls[1..]| - 1] == last;
      var all := ls[0] + "\n" + rest;
      assert all[|all| - |last|..] == rest[|rest| - |last|..];
    }
  }

  lemma {:induction false} WithoutEdges(ls: seq<string>, mark: string)
    requires |ls| >= 1 && ls[0] != mark && ls[|ls| - 1] != mark
    ensures var kept := Without(ls, mark);
            && |kept| >= 1 && kept[0] == ls[0] && kept[|kept| - 1] == ls[|ls| - 1]
            && (|ls| >= 2 ==> |kept| >= 2)
  {
    WithoutLast(ls, mark);
    if |ls| >= 2 { WithoutLast(ls[1..], mark); }
  }

  lemma {:induction false} WithoutLast(ls: seq<string>, mark: string)
    requires |ls| >= 1 && ls[|ls| - 1] != mark
    ensures var kept := Without(ls, mark); |kept| >= 1 && kept[|kept| - 1] == ls[|ls| - 1]
  {
    if |ls| > 1 {
      WithoutLast(ls[1..], mark);
    } else {
      assert Without(ls, mark) == [ls[0]] + Without(ls[1..], mark);
      assert ls[1..] == [];
    }
  }

  lemma JoinedBlock(ls: seq<string>)
    requires |ls| >= 2 && StartsBlockComment(ls[0]) && Closes(ls[|ls| - 1])
    ensures IsComment(Block, Join(ls)) && '\n' in Join(ls)
  {
    JoinEdges(ls);
    var c, first, last := Join(ls), ls[0], ls[|ls| - 1];
    assert c[0] == first[0] && c[1] == first[1];
    assert c[|c| - |last|..][|last| - 1] == c[|c| - 1];
    assert c[|c| - |last|..][|last| - 2] == c[|c| - 2];
    assert Join(ls)[|ls[0]|] == '\n';
  }

  lemma LinesOfBlock(r: string)
    requires IsComment(Block, r)
    ensures StartsBlockComment(Lines(r)[0]) && Closes(Lines(r)[|Lines(r)| - 1])
  {
    FirstLineStarts(r);
    LastLineEnds(r);
  }

  /** A rewritten comment without its emptied lines keeps its markers and, if it had one, a line feed. */
  lemma ClearedIsComment(kind: CommentType, t: string, r: string)
    requires IsSoundChange(kind, t, Rewritten(r))
    ensures IsComment(kind, Cleared(t, r))
    ensures '\n' in r ==> '\n' in Cleared(t, r)
    ensures '\n' !in r ==> Cleared(t, r) == r
  {
    var e := Edit(0, |t|, r, t);
    assert IsRewrite(kind, e);
    EdgesAreKept(e);
    hide IsSoundChange, MarkLines;
    var ms := MarkedLines(e);
    if '\n' in r {
      hide Without;
      ClearedBlock(ms, r);
    } else {
      LinesOfOne(r);
      assert ms == [r];
      assert Without(ms, HUSK) == [r] by { assert ms[1..] == []; }
    }
  }

  lemma ClearedBlock(ms: seq<string>, r: string)
    requires IsComment(Block, r) && '\n' in r
    requires |ms| == |Lines(r)| && ms[0] == Lines(r)[0] && ms[|ms| - 1] == Lines(r)[|ms| - 1]
    requires ms[0] != HUSK && ms[|ms| - 1] != HUSK
    ensures IsComment(Block, Join(Without(ms, HUSK))) && '\n' in Join(Without(ms, HUSK))
  {
    LinesWithBreak(r);
    LinesOfBlock(r);
    WithoutEdges(ms, HUSK);
    JoinedBlock(Without(ms, HUSK));
  }

  // ----- how the edited source begins -----

  lemma FirstCharOf(e: Elem, rest: string)
    requires IsProper(e)
    ensures TextOf(e) != "" && (TextOf(e) + rest)[0] == TextOf(e)[0]
  {
  }

  lemma {:induction false} AfterRemoval(strip: Strip, es: seq<Elem>)
    requires WellPlaced(es) && RemovalAhead(strip, es)
    ensures var after := Unlex(EditElems(strip, es)); after == "" || IsLineTerminator(after[0])
    decreases |es|
  {
    WellPlacedTail(es);
    ElementGoesWhenRemoved(strip, es);
    if es[0].White? {
      AfterRemoval(strip, es[1..]);
    } else if es[1..] != [] {
      BreakOrRemoval(strip, es[1..]);
    }
  }

  lemma ElementGoesWhenRemoved(strip: Strip, es: seq<Elem>)
    requires AllProper(es) && RemovalAhead(strip, es) && AllProper(es[1..])
    ensures EditElems(strip, es) == EditElems(strip, es[1..])
  {
    ElementGoes(strip, es);
  }

  lemma {:induction false} BreakOrRemoval(strip: Strip, es: seq<Elem>)
    requires WellPlaced(es) && es != [] && es[0].Terminator?
    ensures var after := Unlex(EditElems(strip, es)); after == "" || IsLineTerminator(after[0])
    decreases |es|
  {
    WellPlacedTail(es);
    if GoesWithNext(strip, es[0], es[1..]) {
      ElementGoes(strip, es);
      AfterRemoval(strip, es[1..]);
    } else {
      UnlexCons(es[0], EditElems(strip, es[1..]));
    }
  }

  /**
   * The edited rest begins as the rest did, or with a line break, or is empty; and it begins
   * exactly as before where code comes next.
   */
  lemma EditedStart(strip: Strip, es: seq<Elem>)
    requires WellPlaced(es) && IsSound(strip)
    ensures var before, after := Unlex(es), Unlex(EditElems(strip, es));
            && (after == "" || IsLineTerminator(after[0]) || (before != "" && after[0] == before[0]))
            && (es == [] ==> after == "")
            && (es != [] && es[0].Code? ==> after != "" && before != "" && after[0] == before[0])
  {
    if es != [] {
      WellPlacedTail(es);
      var e := es[0];
      FirstCharOf(e, Unlex(es[1..]));
      if GoesWithNext(strip, e, es[1..]) {
        ElementGoes(strip, es);
        AfterRemoval(strip, es[1..]);
      } else if RemovalAhead(strip, es) {
        AfterRemoval(strip, es);
      } else {
        EditedElementStart(strip, e, Unlex(EditElems(strip, es[1..])));
        UnlexConcat(EditElem(strip, e), EditElems(strip, es[1..]));
        UnlexOne(EditElem(strip, e)[0]);
      }
    }
  }

  lemma EditedElementStart(strip: Strip, e: Elem, rest: string)
    requires IsProper(e) && IsSound(strip) && !(e.LineComment? && strip(Line, e.text).Removed?)
    ensures |EditElem(strip, e)| == 1
    ensures IsProper(EditElem(strip, e)[0])
    ensures TextOf(EditElem(strip, e)[0])[0] == TextOf(e)[0]
    ensures e.Code? ==> EditElem(strip, e) == [e]
    ensures var f := EditElem(strip, e)[0];
            f == e || (f.LineComment? && e.LineComment?) || (f.BlockComment? && e.BlockComment?)
  {
    var kind := if e.LineComment? then Line else Block;
    var change := strip(kind, TextOf(e));
    assert IsSoundChange(kind, TextOf(e), change);
    if (e.LineComment? || e.BlockComment?) && change.Rewritten? {
      ClearedIsComment(kind, TextOf(e), change.text);
    }
  }

  // ----- scanning the edited source -----

  /** The two rests begin alike, as far as the element before them can tell. */
  predicate BeginsAlike(before: string, after: string) {
    after == "" || IsLineTerminator(after[0]) || (before != "" && after[0] == before[0])
  }

  lemma ScanLineComment(t: string, rest: string, goal: Goal)
    requires IsComment(Line, t) && (rest == "" || IsLineTerminator(rest[0])) && !goal.JsxChildren?
    ensures Scan(t + rest, goal) == Some(LineComment(t))
  {
    var s := t + rest;
    EndOfLineIs(s, 2, |t|);
    assert s[..|t|] == t;
  }

  lemma ScanBlockComment(t: string, rest: string, goal: Goal)
    requires StartsBlockComment(t) && Close(InBlockComment, t, 2) == Some(|t|) && !goal.JsxChildren?
    ensures Scan(t + rest, goal) == Some(BlockComment(t))
  {
    hide Close;
    var s := t + rest;
    assert s[..|t|] == t;
    CloseIsLocal(InBlockComment, t, s, 2);
  }

  lemma ScanCode(s: string, goal: Goal, after: string)
    requires s != "" && Scan(s, goal).Some? && Scan(s, goal).value.Code?
    requires var t := Scan(s, goal).value.text;
             && BeginsAlike(s[|t|..], after)
             && (goal.JsxChildren? && s[0] !in "{<" ==>
                   |t| < |s| && after != "" && after[0] == s[|t|])
    ensures Scan(Scan(s, goal).value.text + after, goal) == Scan(s, goal)
  {
    var t := Scan(s, goal).value.text;
    var u := t + after;
    assert u[..|t|] == t == s[..|t|];
    assert forall j :: 0 <= j < |t| ==> u[j] == s[j];
    assert |t| < |s| ==> s[|t|..][0] == s[|t|];
    if goal.JsxChildren? && s[0] !in "{<" {
      assert t == s[..JsxTextEnd(s, 0).value];
      JsxTextEndIs(u, 0, |t|);
    } else if Opening(s[0], goal).Some? {
      CloseIsLocal(Opening(s[0], goal).value, s, u, 1);
    }
  }

  /** Every edited block comment still ends only at its end. */
  predicate ClosesAtEnd(strip: Strip, e: Elem)
    requires IsProper(e)
  {
    e.BlockComment? && strip(Block, e.text).Rewritten? ==>
      var t := Cleared(e.text, strip(Block, e.text).text);
      Close(InBlockComment, t, 2) == Some(|t|)
  }

  predicate AllCloseAtEnd(strip: Strip, es: seq<Elem>)
    requires AllProper(es)
  {
    forall k :: 0 <= k < |es| ==> ClosesAtEnd(strip, es[k])
  }

  lemma ScanWhite(e: Elem, rest: string, goal: Goal)
    requires IsProper(e) && (e.White? || e.Terminator?) && !goal.JsxChildren?
    ensures Scan(TextOf(e) + rest, goal) == Some(e)
  {
  }

  lemma ScanBlockOf(s: string, goal: Goal)
    requires s != "" && Scan(s, goal).Some? && Scan(s, goal).value.BlockComment?
    ensures var t := Scan(s, goal).value.text; StartsBlockComment(t) && Close(InBlockComment, t, 2) == Some(|t|)
  {
    var t := Scan(s, goal).value.text;
    assert t == s[..|t|];
    CloseIsLocal(InBlockComment, s, t, 2);
  }

  /** The element that stays in place of `e` is scanned at the head of the edited rest. */
  lemma ScanEdited(strip: Strip, s: string, goal: Goal, after: string)
    requires IsSound(strip) && s != "" && Scan(s, goal).Some? && IsProper(Scan(s, goal).value)
    requires var e := Scan(s, goal).value;
             && !(e.LineComment? && strip(Line, e.text).Removed?)
             && ClosesAtEnd(strip, e)
             && BeginsAlike(s[|TextOf(e)|..], after)
             && (e.Code? && goal.JsxChildren? && s[0] !in "{<" ==>
                   |e.text| < |s| && after != "" && after[0] == s[|e.text|])
    ensures |EditElem(strip, Scan(s, goal).value)| == 1
    ensures var f := EditElem(strip, Scan(s, goal).value)[0];
            TextOf(f) + after != "" && Scan(TextOf(f) + after, goal) == Some(f)
  {
    var e := Scan(s, goal).value;
    EditedElementStart(strip, e, after);
    var f := EditElem(strip, e)[0];
    match e
    case White(_) => ScanWhite(e, after, goal);
    case Terminator(_) => ScanWhite(e, after, goal);
    case Code(t) => ScanCode(s, goal, after);
    case LineComment(t) =>
      var n := EndOfLine(s, 2);
      assert n < |s| ==> s[n..][0] == s[n];
      ScanLineComment(f.text, after, goal);
    case BlockComment(t) =>
      if strip(Block, t).Rewritten? {
        assert IsComment(Block, f.text);
        ScanBlockComment(f.text, after, goal);
      } else {
        ScanBlockOf(s, goal);
        ScanBlockComment(t, after, goal);
      }
  }

  // ----- lexing the edited source -----

  /** Lexing from `s` on, one element and the rest. */
  lemma LexStep(s: string, goal: seq<Item> -> Goal, items: seq<Item>, gap: Gap)
    requires s != "" && LexFrom(s, goal, items, gap).Some?
    ensures var es := LexFrom(s, goal, items, gap).value;
            && es != [] && Scan(s, goal(items)) == Some(es[0]) && TextOf(es[0]) <= s
            && LexFrom(s[|TextOf(es[0])|..], goal,
                       if es[0].Code? then items + [Item(es[0].text, gap)] else items,
                       if es[0].Code? then Touching else Wider(gap, GapOf(es[0]))) == Some(es[1..])
            && WellPlaced(es) && s == Unlex(es) && s[|TextOf(es[0])|..] == Unlex(es[1..])
  {
    LexIsWellPlaced(s, goal, items, gap);
    UnlexLex(s, goal, items, gap);
    var es := LexFrom(s, goal, items, gap).value;
    assert [es[0]] + es[1..] == es;
  }

  /** What stays of the first element, scanned at the head of the edited source. */
  lemma FirstEdited(strip: Strip, s: string, goal: seq<Item> -> Goal, items: seq<Item>, gap: Gap)
    requires IsSound(strip) && s != "" && LexFrom(s, goal, items, gap).Some?
    requires var es := LexFrom(s, goal, items, gap).value;
             AllProper(es) && es != [] && ClosesAtEnd(strip, es[0]) && AllProper(es[1..])
             && !GoesWithNext(strip, es[0], es[1..]) && !(es[0].LineComment? && strip(Line, es[0].text).Removed?)
    ensures var es := LexFrom(s, goal, items, gap).value;
            var after := Unlex(EditElems(strip, es[1..]));
            && |EditElem(strip, es[0])| == 1
            && var f := EditElem(strip, es[0])[0];
               && (es[0].Code? ==> f == es[0]) && (f.Code? ==> es[0].Code?)
               && TextOf(f) + after != "" && Scan(TextOf(f) + after, goal(items)) == Some(f)
               && Unlex(EditElems(strip, es)) == TextOf(f) + after
               && EditElems(strip, es) == [f] + EditElems(strip, es[1..])
  {
    LexStep(s, goal, items, gap);
    var es := LexFrom(s, goal, items, gap).value;
    WellPlacedTail(es);
    EditedStart(strip, es[1..]);
    var e := es[0];
    var n := |TextOf(e)|;
    var after := Unlex(EditElems(strip, es[1..]));
    assert ClosesAtEnd(strip, e);
    assert n < |s| ==> s[n] == s[n..][0];
    if e.Code? && goal(items).JsxChildren? && s[0] !in "{<" {
      NextIsCode(s, goal, items, gap);
    }
    EditedElementStart(strip, e, after);
    ScanEdited(strip, s, goal(items), after);
    UnlexCons(EditElem(strip, e)[0], EditElems(strip, es[1..]));
  }

  lemma JsxTextScans(s: string, goal: Goal)
    requires s != "" && goal.JsxChildren? && s[0] !in "{<" && Scan(s, goal).Some?
    ensures var t := TextOf(Scan(s, goal).value);
            Scan(s, goal).value.Code? && |t| < |s| && (s[|t|] == '{' || s[|t|] == '<')
  {
    assert s[JsxTextEnd(s, 0).value] in "{<";
  }

  lemma BracketScans(s: string, goal: Goal)
    requires s != "" && (s[0] == '{' || s[0] == '<') && Scan(s, goal).Some?
    ensures Scan(s, goal).value.Code?
  {
  }

  /** After JSX text comes the brace or bracket that ends it. */
  lemma NextIsCode(s: string, goal: seq<Item> -> Goal, items: seq<Item>, gap: Gap)
    requires s != "" && LexFrom(s, goal, items, gap).Some?
    requires goal(items).JsxChildren? && s[0] !in "{<"
    ensures var es := LexFrom(s, goal, items, gap).value;
            es != [] && |TextOf(es[0])| < |s| && |es| > 1 && es[1].Code?
  {
    LexStep(s, goal, items, gap);
    JsxTextScans(s, goal(items));
    var es := LexFrom(s, goal, items, gap).value;
    hide LexFrom, Scan, WellPlaced, Unlex;
    var rest := s[|TextOf(es[0])|..];
    assert rest[0] == s[|TextOf(es[0])|];
    LexStep(rest, goal, items + [Item(es[0].text, gap)], Touching);
    BracketScans(rest, goal(items + [Item(es[0].text, gap)]));
  }

  /** What is left of a rewritten block comment is comments and white space, also before what follows it. */
  predicate StaysGap(strip: Strip, e: Elem, after: string)
    requires IsProper(e)
  {
    e.BlockComment? && strip(Block, e.text).Rewritten? ==>
      var gs := Gaps(Cleared(e.text, strip(Block, e.text).text));
      gs.Some? && MayPrecedeText(gs.value, after)
  }

  predicate AllStayGaps(strip: Strip, es: seq<Elem>)
    requires AllProper(es)
  {
    es == [] ||
    (StaysGap(strip, es[0], Unlex(EditElems(strip, es[1..]))) && AllStayGaps(strip, es[1..]))
  }

  lemma ClosedStaysGap(strip: Strip, e: Elem, after: string)
    requires IsProper(e) && IsSound(strip) && ClosesAtEnd(strip, e)
    ensures StaysGap(strip, e, after)
  {
    if e.BlockComment? && strip(Block, e.text).Rewritten? {
      assert IsSoundChange(Block, e.text, strip(Block, e.text));
      ClearedIsComment(Block, e.text, strip(Block, e.text).text);
      OneComment(Cleared(e.text, strip(Block, e.text).text));
    }
  }

  lemma OneComment(t: string)
    requires StartsBlockComment(t) && Close(InBlockComment, t, 2) == Some(|t|)
    ensures Gaps(t) == Some([BlockComment(t)])
  {
    ScanBlockComment(t, "", Div);
    assert t + "" == t && t[|t|..] == "";
    assert Gaps("") == Some([]) && [BlockComment(t)] + [] == [BlockComment(t)];
    assert Scan(t, Div) == Some(BlockComment(t)) && TextOf(BlockComment(t)) == t;
  }

  /** Comments that close only at their end stay comments. */
  lemma {:induction false} ClosedStayGaps(strip: Strip, es: seq<Elem>)
    requires AllProper(es) && IsSound(strip) && AllCloseAtEnd(strip, es)
    ensures AllStayGaps(strip, es)
  {
    if es != [] {
      assert ClosesAtEnd(strip, es[0]);
      forall k | 0 <= k < |es[1..]| ensures ClosesAtEnd(strip, es[1..][k]) { assert ClosesAtEnd(strip, es[k + 1]); }
      ClosedStaysGap(strip, es[0], Unlex(EditElems(strip, es[1..])));
      ClosedStayGaps(strip, es[1..]);
    }
  }

  /** The elements that stand in the output for one that stays. */
  function PiecesOf(strip: Strip, e: Elem): seq<Elem>
    requires IsProper(e)
  {
    if e.BlockComment? && strip(Block, e.text).Rewritten? then
      var gs := Gaps(Cleared(e.text, strip(Block, e.text).text));
      if gs.Some? then gs.value else []
    else EditElem(strip, e)
  }

  /** What lexing does at an element that stays. */
  ghost predicate IsLexedAs(strip: Strip, es: seq<Elem>, goal: seq<Item> -> Goal, items: seq<Item>, gap: Gap)
    requires AllProper(es) && es != [] && AllProper(es[1..]) && |EditElem(strip, es[0])| == 1
  {
    var f, fs, gs := EditElem(strip, es[0])[0], EditElems(strip, es[1..]), PiecesOf(strip, es[0]);
    var more := LexFrom(Unlex(fs), goal, if f.Code? then items + [Item(f.text, gap)] else items,
                        if f.Code? then Touching else Wider(gap, GapOf(f)));
    && EditElems(strip, es) == [f] + fs
    && LexFrom(Unlex(EditElems(strip, es)), goal, items, gap) == (if more.None? then None else Some(gs + more.value))
    && forall hs: seq<Elem> :: ItemsOf(gs + hs, gap) == ItemsOf([f] + hs, gap)
  }

  lemma RewrittenLexed(strip: Strip, s: string, goal: seq<Item> -> Goal, items: seq<Item>, gap: Gap, gap': Gap)
    requires IsSound(strip) && s != "" && LexFrom(s, goal, items, gap).Some?
    requires var es := LexFrom(s, goal, items, gap).value;
             AllProper(es) && es != [] && es[0].BlockComment? && strip(Block, es[0].text).Rewritten?
             && AllProper(es[1..]) && StaysGap(strip, es[0], Unlex(EditElems(strip, es[1..])))
    ensures var es := LexFrom(s, goal, items, gap).value;
            |EditElem(strip, es[0])| == 1 && !EditElem(strip, es[0])[0].Code?
            && IsLexedAs(strip, es, goal, items, gap')
  {
    LexStep(s, goal, items, gap);
    var es := LexFrom(s, goal, items, gap).value;
    var after := Unlex(EditElems(strip, es[1..]));
    EditedElementStart(strip, es[0], after);
    var f := EditElem(strip, es[0])[0];
    var gs := Gaps(f.text).value;
    EditedFirst(strip, es);
    UnlexCons(f, EditElems(strip, es[1..]));
    NoJsxAtComment(s, goal(items));
    LexGaps(f.text, after, goal, items, gap');
    WidenedByText(f.text, gap');
    GapsHoldNoCode(f.text);
    forall hs: seq<Elem> ensures ItemsOf(gs + hs, gap') == ItemsOf([f] + hs, gap') {
      ItemsAfterGaps(gs, hs, gap');
      assert ([f] + hs)[1..] == hs;
    }
  }

  lemma NoJsxAtComment(s: string, goal: Goal)
    requires s != "" && Scan(s, goal).Some? && Scan(s, goal).value.BlockComment?
    ensures !goal.JsxChildren?
  {
  }

  lemma FirstLexed(strip: Strip, s: string, goal: seq<Item> -> Goal, items: seq<Item>, gap: Gap, gap': Gap)
    requires IsSound(strip) && s != "" && LexFrom(s, goal, items, gap).Some?
    requires var es := LexFrom(s, goal, items, gap).value;
             AllProper(es) && es != [] && AllProper(es[1..]) && !Goes(strip, es)
             && StaysGap(strip, es[0], Unlex(EditElems(strip, es[1..])))
    ensures var es := LexFrom(s, goal, items, gap).value;
            && |EditElem(strip, es[0])| == 1 && IsLexedAs(strip, es, goal, items, gap')
            && var f := EditElem(strip, es[0])[0]; (es[0].Code? ==> f == es[0]) && (f.Code? ==> es[0].Code?)
  {
    var es := LexFrom(s, goal, items, gap).value;
    if es[0].BlockComment? && strip(Block, es[0].text).Rewritten? {
      RewrittenLexed(strip, s, goal, items, gap, gap');
    } else {
      FirstEdited(strip, s, goal, items, gap);
      LexCons(EditElem(strip, es[0])[0], Unlex(EditElems(strip, es[1..])), goal, items, gap');
    }
  }

  /** Does the element leave nothing behind? */
  predicate Goes(strip: Strip, es: seq<Elem>)
    requires AllProper(es) && es != [] && AllProper(es[1..])
  {
    GoesWithNext(strip, es[0], es[1..]) || (es[0].LineComment? && strip(Line, es[0].text).Removed?)
  }

  /** When the gaps come out alike, lexing the edited source gives the source's code with its gaps. */
  lemma {:induction false} LexEdited(strip: Strip, s: string, goal: seq<Item> -> Goal, items: seq<Item>,
                                     gap: Gap, gap': Gap)
    requires IsSound(strip) && LexFrom(s, goal, items, gap).Some?
    requires var es := LexFrom(s, goal, items, gap).value;
             AllProper(es) && AllStayGaps(strip, es) && ItemsOf(EditElems(strip, es), gap') == ItemsOf(es, gap)
    ensures var es := LexFrom(s, goal, items, gap).value;
            var out := LexFrom(Unlex(EditElems(strip, es)), goal, items, gap');
            out.Some? && ItemsOf(out.value, gap') == ItemsOf(es, gap)
    decreases |s|
  {
    if s != "" {
      LexStep(s, goal, items, gap);
      var es := LexFrom(s, goal, items, gap).value;
      assert AllProper(es[1..]);
      var rest := s[|TextOf(es[0])|..];
      if Goes(strip, es) {
        ElementGoes(strip, es);
        LexEdited(strip, rest, goal, items, Wider(gap, GapOf(es[0])), gap');
      } else {
        FirstLexed(strip, s, goal, items, gap, gap');
        var f, fs := EditElem(strip, es[0])[0], EditElems(strip, es[1..]);
        SameItemsFirst(es[0], es[1..], f, fs, gap, gap');
        if f.Code? {
          LexEdited(strip, rest, goal, items + [Item(f.text, gap)], Touching, Touching);
        } else {
          LexEdited(strip, rest, goal, items, Wider(gap, GapOf(es[0])), Wider(gap', GapOf(f)));
        }
        var more := LexFrom(Unlex(fs), goal, if f.Code? then items + [Item(f.text, gap')] else items,
                            if f.Code? then Touching else Wider(gap', GapOf(f)));
        SameItemsFirst(es[0], es[1..], f, more.value, gap, gap');
      }
    }
  }

  /** Lists whose first elements correspond have the same code with the same gaps exactly if their rests do. */
  lemma SameItemsFirst(e: Elem, es: seq<Elem>, f: Elem, fs: seq<Elem>, gap: Gap, gap': Gap)
    requires (e.Code? ==> f == e) && (f.Code? ==> e.Code?)
    ensures ItemsOf([f] + fs, gap') == ItemsOf([e] + es, gap) <==>
            if e.Code? then gap' == gap && ItemsOf(fs, Touching) == ItemsOf(es, Touching)
            else ItemsOf(fs, Wider(gap', GapOf(f))) == ItemsOf(es, Wider(gap, GapOf(e)))
    ensures ([e] + es)[0] == e && ([e] + es)[1..] == es
  {
    assert ([f] + fs)[1..] == fs && ([e] + es)[1..] == es;
    if e.Code? {
      var xs, ys := ItemsOf([f] + fs, gap'), ItemsOf([e] + es, gap);
      assert xs == [Item(e.text, gap')] + ItemsOf(fs, Touching) && ys == [Item(e.text, gap)] + ItemsOf(es, Touching);
      assert xs[0] == Item(e.text, gap') && ys[0] == Item(e.text, gap);
      assert xs[1..] == ItemsOf(fs, Touching) && ys[1..] == ItemsOf(es, Touching);
    }
  }

  /** And only then: the first gap that comes out different shows in what lexing gives. */
  lemma {:induction false} LexShowsGaps(strip: Strip, s: string, goal: seq<Item> -> Goal, items: seq<Item>,
                                        gap: Gap, gap': Gap)
    requires IsSound(strip) && LexFrom(s, goal, items, gap).Some?
    requires AllProper(LexFrom(s, goal, items, gap).value)
    requires var es := LexFrom(s, goal, items, gap).value;
             var out := LexFrom(Unlex(EditElems(strip, es)), goal, items, gap');
             AllStayGaps(strip, es) && out.Some? && ItemsOf(out.value, gap') == ItemsOf(es, gap)
    ensures var es := LexFrom(s, goal, items, gap).value; ItemsOf(EditElems(strip, es), gap') == ItemsOf(es, gap)
    decreases |s|
  {
    if s != "" {
      LexStep(s, goal, items, gap);
      var es := LexFrom(s, goal, items, gap).value;
      assert AllProper(es[1..]) && es == [es[0]] + es[1..];
      var rest := s[|TextOf(es[0])|..];
      if Goes(strip, es) {
        ElementGoes(strip, es);
        LexShowsGaps(strip, rest, goal, items, Wider(gap, GapOf(es[0])), gap');
      } else {
        FirstLexed(strip, s, goal, items, gap, gap');
        var f, fs := EditElem(strip, es[0])[0], EditElems(strip, es[1..]);
        var more := LexFrom(Unlex(fs), goal, if f.Code? then items + [Item(f.text, gap')] else items,
                            if f.Code? then Touching else Wider(gap', GapOf(f)));
        SameItemsFirst(es[0], es[1..], f, more.value, gap, gap');
        if f.Code? {
          LexShowsGaps(strip, rest, goal, items + [Item(f.text, gap)], Touching, Touching);
        } else {
          LexShowsGaps(strip, rest, goal, items, Wider(gap, GapOf(es[0])), Wider(gap', GapOf(f)));
        }
        SameItemsFirst(es[0], es[1..], f, fs, gap, gap');
      }
    }
  }

  // ----- when code is spilled -----

  /** The first character of the next piece of code. */
  function NextStart(es: seq<Elem>): Option<char> {
    if es == [] then None
    else if es[0].Code? then if es[0].text == "" then None else Some(es[0].text[0])
    else NextStart(es[1..])
  }

  lemma {:induction false} FirstItemStarts(es: seq<Elem>, gap: Gap)
    requires ItemsOf(es, gap) != [] && ItemsOf(es, gap)[0].text != ""
    ensures NextStart(es) == Some(ItemsOf(es, gap)[0].text[0])
  {
    if !es[0].Code? { FirstItemStarts(es[1..], Wider(gap, GapOf(es[0]))); }
  }

  /** What is left of a rewritten block comment begins, past its gaps, with code unlike the source's next. */
  predicate SpillShows(strip: Strip, e: Elem, later: seq<Elem>)
    requires IsProper(e)
  {
    e.BlockComment? && strip(Block, e.text).Rewritten? &&
    var spill := Spill(Cleared(e.text, strip(Block, e.text).text));
    StartsCode(spill) && NextStart(later) != Some(spill[0])
  }

  /** No comment spills anything, or what it spills shows. */
  predicate AllStandOut(strip: Strip, es: seq<Elem>)
    requires AllProper(es)
  {
    es == [] ||
    (&& (StaysGap(strip, es[0], Unlex(EditElems(strip, es[1..]))) || SpillShows(strip, es[0], es[1..]))
     && AllStandOut(strip, es[1..]))
  }

  lemma {:induction false} StayingStandsOut(strip: Strip, es: seq<Elem>)
    requires AllProper(es) && AllStayGaps(strip, es)
    ensures AllStandOut(strip, es)
  {
    if es != [] { StayingStandsOut(strip, es[1..]); }
  }

  lemma SpillDiffers(strip: Strip, s: string, goal: seq<Item> -> Goal, items: seq<Item>, gap: Gap, gap': Gap)
    requires IsSound(strip) && s != "" && LexFrom(s, goal, items, gap).Some?
    requires var es := LexFrom(s, goal, items, gap).value;
             AllProper(es) && es != [] && AllProper(es[1..]) && SpillShows(strip, es[0], es[1..])
    ensures var es := LexFrom(s, goal, items, gap).value;
            var out := LexFrom(Unlex(EditElems(strip, es)), goal, items, gap');
            !(out.Some? && ItemsOf(out.value, gap') == ItemsOf(es, gap))
  {
    LexStep(s, goal, items, gap);
    NoJsxAtComment(s, goal(items));
    var es := LexFrom(s, goal, items, gap).value;
    hide LexFrom, Scan, StartsCode, Spill, WellPlaced, Unlex;
    EditedElementStart(strip, es[0], "");
    var f := EditElem(strip, es[0])[0];
    EditedFirst(strip, es);
    UnlexCons(f, EditElems(strip, es[1..]));
    LexShowsSpill(f.text, Unlex(EditElems(strip, es[1..])), goal, items, gap');
    if ItemsOf(es, gap) != [] && ItemsOf(es, gap)[0].text != "" { FirstItemStarts(es, gap); }
  }

  /** Lexing that gives the source's code shows that none was spilled. */
  lemma {:induction false} LexShowsSpills(strip: Strip, s: string, goal: seq<Item> -> Goal, items: seq<Item>,
                                          gap: Gap, gap': Gap)
    requires IsSound(strip) && LexFrom(s, goal, items, gap).Some?
    requires AllProper(LexFrom(s, goal, items, gap).value)
    requires var es := LexFrom(s, goal, items, gap).value;
             var out := LexFrom(Unlex(EditElems(strip, es)), goal, items, gap');
             AllStandOut(strip, es) && out.Some? && ItemsOf(out.value, gap') == ItemsOf(es, gap)
    ensures AllStayGaps(strip, LexFrom(s, goal, items, gap).value)
    decreases |s|
  {
    if s != "" {
      LexStep(s, goal, items, gap);
      var es := LexFrom(s, goal, items, gap).value;
      assert AllProper(es[1..]) && es == [es[0]] + es[1..];
      var rest := s[|TextOf(es[0])|..];
      if Goes(strip, es) {
        ElementGoes(strip, es);
        LexShowsSpills(strip, rest, goal, items, Wider(gap, GapOf(es[0])), gap');
      } else {
        StaysUnlessItShows(strip, s, goal, items, gap, gap');
        FirstLexed(strip, s, goal, items, gap, gap');
        var f, fs := EditElem(strip, es[0])[0], EditElems(strip, es[1..]);
        var more := LexFrom(Unlex(fs), goal, if f.Code? then items + [Item(f.text, gap')] else items,
                            if f.Code? then Touching else Wider(gap', GapOf(f)));
        SameItemsFirst(es[0], es[1..], f, more.value, gap, gap');
        if f.Code? {
          LexShowsSpills(strip, rest, goal, items + [Item(f.text, gap)], Touching, Touching);
        } else {
          LexShowsSpills(strip, rest, goal, items, Wider(gap, GapOf(es[0])), Wider(gap', GapOf(f)));
        }
      }
    }
  }

  lemma StaysUnlessItShows(strip: Strip, s: string, goal: seq<Item> -> Goal, items: seq<Item>, gap: Gap, gap': Gap)
    requires IsSound(strip) && s != "" && LexFrom(s, goal, items, gap).Some?
    requires var es := LexFrom(s, goal, items, gap).value;
             && AllProper(es) && es != [] && AllProper(es[1..])
             && (StaysGap(strip, es[0], Unlex(EditElems(strip, es[1..]))) || SpillShows(strip, es[0], es[1..]))
    requires var es := LexFrom(s, goal, items, gap).value;
             var out := LexFrom(Unlex(EditElems(strip, es)), goal, items, gap');
             out.Some? && ItemsOf(out.value, gap') == ItemsOf(es, gap)
    ensures var es := LexFrom(s, goal, items, gap).value; StaysGap(strip, es[0], Unlex(EditElems(strip, es[1..])))
  {
    var es := LexFrom(s, goal, items, gap).value;
    hide LexFrom, Unlex, EditElems, StaysGap, ItemsOf, SpillShows, IsSound;
    if SpillShows(strip, es[0], es[1..]) { SpillDiffers(strip, s, goal, items, gap, gap'); }
  }

  // ----- when the gaps come out alike -----

  /**
   * Walks the elements with two notes on the current gap: whether it held a line break (`had`), and
   * whether it still holds one once its comments are rewritten (`has`). A line terminator outside
   * a comment always leaves one. Fails where a gap before code had a break and has none left.
   */
  predicate BreaksSurvive(strip: Strip, es: seq<Elem>, had: bool, has: bool)
    requires AllProper(es)
  {
    if es == [] then true
    else
      assert IsProper(es[0]);
      match es[0]
      case Code(_) => (had ==> has) && BreaksSurvive(strip, es[1..], false, false)
      case Terminator(_) => BreaksSurvive(strip, es[1..], true, true)
      case BlockComment(t) =>
        BreaksSurvive(strip, es[1..], had || HasBreak(t), has || HasBreak(TextOf(EditElem(strip, es[0])[0])))
      case _ => BreaksSurvive(strip, es[1..], had, has)
  }

  /** A strip brings no line terminator into a comment that had none. */
  ghost predicate AddsNoBreak(strip: Strip) {
    forall t, r :: strip(Block, t) == Rewritten(r) && HasBreak(r) ==> HasBreak(t)
  }

  /** Up to a line break or the end of the source, it makes no difference what the gap held before. */
  lemma {:induction false} GapForgotten(strip: Strip, es: seq<Elem>, g: Gap, h: Gap, a: bool, b: bool, c: bool, d: bool)
    requires WellPlaced(es)
    requires RemovalAhead(strip, es) || es == [] || es[0].Terminator?
    ensures ItemsOf(es, g) == ItemsOf(es, h)
    ensures ItemsOf(EditElems(strip, es), g) == ItemsOf(EditElems(strip, es), h)
    ensures BreaksSurvive(strip, es, a, b) == BreaksSurvive(strip, es, c, d)
    decreases |es|
  {
    hide IsComment, HasBreak, MayPrecede;
    if es != [] {
      WellPlacedTail(es);
      if es[0].Terminator? {
        if GoesWithNext(strip, es[0], es[1..]) {
          ElementGoes(strip, es);
          GapForgotten(strip, es[1..], g, h, a, b, c, d);
        } else {
          assert EditElems(strip, es)[1..] == EditElems(strip, es[1..]);
        }
      } else {
        ElementGoesWhenRemoved(strip, es);
        GapForgotten(strip, es[1..], g, h, a, b, c, d);
        GapForgotten(strip, es[1..], Wider(g, GapOf(es[0])), Wider(h, GapOf(es[0])), a, b, c, d);
      }
    }
  }

  lemma EditedBlockBreaks(strip: Strip, t: string)
    requires IsSound(strip) && AddsNoBreak(strip) && IsProper(BlockComment(t))
    ensures |EditElem(strip, BlockComment(t))| == 1 && EditElem(strip, BlockComment(t))[0].BlockComment?
    ensures HasBreak(TextOf(EditElem(strip, BlockComment(t))[0])) ==> HasBreak(t)
  {
    EditedElementStart(strip, BlockComment(t), "");
    if strip(Block, t).Rewritten? {
      var r := strip(Block, t).text;
      assert IsSoundChange(Block, t, strip(Block, t));
      ClearedBreaks(t, r);
    }
  }

  lemma ClearedBreaks(t: string, r: string)
    ensures HasBreak(Cleared(t, r)) ==> HasBreak(r)
  {
    var ms := MarkLines(Lines(t), Lines(r));
    var c := Cleared(t, r);
    if HasBreak(c) {
      var k :| 0 <= k < |c| && IsLineTerminator(c[k]);
      if c[k] == '\n' {
        if '\n' !in r {
          LinesOfOne(r);
          ShortJoin(Without(ms, HUSK), ms);
        } else {
          var j :| 0 <= j < |r| && r[j] == '\n';
          assert IsLineTerminator(r[j]);
        }
      } else {
        JoinChars(Without(ms, HUSK), c[k]);
        var i :| 0 <= i < |Without(ms, HUSK)| && c[k] in Without(ms, HUSK)[i];
        WithoutFrom(ms, Without(ms, HUSK)[i], HUSK);
        var j :| 0 <= j < |ms| && ms[j] == Without(ms, HUSK)[i];
        LineChars(r, j, c[k]);
        var n :| 0 <= n < |r| && r[n] == c[k];
        assert IsLineTerminator(r[n]);
      }
    }
  }

  lemma ShortJoin(kept: seq<string>, ms: seq<string>)
    requires |ms| == 1 && kept == Without(ms, HUSK) && '\n' !in ms[0]
    ensures '\n' !in Join(kept)
  {
    assert ms[1..] == [];
  }

  lemma SameHead(a: Item, b: Item, xs: seq<Item>, ys: seq<Item>)
    ensures [a] + xs == [b] + ys <==> a == b && xs == ys
  {
    if [a] + xs == [b] + ys {
      assert ([a] + xs)[0] == ([b] + ys)[0];
      assert ([a] + xs)[1..] == xs && ([b] + ys)[1..] == ys;
    }
  }

  ghost predicate AreAlike(strip: Strip, es: seq<Elem>, gap: Gap, gap': Gap)
    requires AllProper(es)
  {
    ItemsOf(EditElems(strip, es), gap') == ItemsOf(es, gap) <==> BreaksSurvive(strip, es, gap.Broken?, gap'.Broken?)
  }

  lemma AlikeWhenGone(strip: Strip, es: seq<Elem>, gap: Gap, gap': Gap)
    requires WellPlaced(es) && es != [] && AllProper(es[1..]) && Goes(strip, es)
    requires AreAlike(strip, es[1..], Spaced, Spaced)
    ensures AreAlike(strip, es, gap, gap')
  {
    hide IsProper, MayPrecede, IsComment, HasBreak;
    WellPlacedTail(es);
    ElementGoes(strip, es);
    var had, has := gap.Broken?, gap'.Broken?;
    GapForgotten(strip, es[1..], gap', Spaced, had, has, false, false);
    GapForgotten(strip, es[1..], Wider(gap, GapOf(es[0])), Spaced, true, true, false, false);
  }

  lemma AlikeWhenKept(strip: Strip, es: seq<Elem>, f: Elem, gap: Gap, gap': Gap)
    requires IsSound(strip) && AddsNoBreak(strip) && AllProper(es) && es != [] && AllProper(es[1..]) && !Goes(strip, es)
    requires EditElem(strip, es[0]) == [f] && EditElems(strip, es) == [f] + EditElems(strip, es[1..])
    requires f == es[0] || (f.LineComment? && es[0].LineComment?) || (f.BlockComment? && es[0].BlockComment?)
    requires if es[0].Code? then AreAlike(strip, es[1..], Touching, Touching)
             else AreAlike(strip, es[1..], Wider(gap, GapOf(es[0])), Wider(gap', GapOf(f)))
    requires gap.Touching? <==> gap'.Touching?
    requires gap'.Broken? ==> gap.Broken?
    ensures AreAlike(strip, es, gap, gap')
  {
    hide IsProper, IsComment, HasBreak, EditElem, EditElems, IsSound, AddsNoBreak;
    var e, fs := es[0], EditElems(strip, es[1..]);
    assert ([f] + fs)[1..] == fs;
    if e.Code? { SameHead(Item(e.text, gap'), Item(e.text, gap), ItemsOf(fs, Touching), ItemsOf(es[1..], Touching)); }
  }

  /** The gaps come out alike exactly when every gap that had a line break still has one. */
  lemma {:induction false} GapsAlike(strip: Strip, es: seq<Elem>, gap: Gap, gap': Gap)
    requires IsSound(strip) && AddsNoBreak(strip) && WellPlaced(es)
    requires gap.Touching? <==> gap'.Touching?
    requires gap'.Broken? ==> gap.Broken?
    ensures ItemsOf(EditElems(strip, es), gap') == ItemsOf(es, gap)
            <==> BreaksSurvive(strip, es, gap.Broken?, gap'.Broken?)
    decreases |es|
  {
    if es != [] {
      WellPlacedTail(es);
      if Goes(strip, es) {
        GapsAlike(strip, es[1..], Spaced, Spaced);
        AlikeWhenGone(strip, es, gap, gap');
      } else {
        KeptElement(strip, es);
        var f := EditElem(strip, es[0])[0];
        hide EditElem, EditElems, BreaksSurvive, ItemsOf, WellPlaced, Goes;
        var (g, g') := if es[0].Code? then (Touching, Touching) else (Wider(gap, GapOf(es[0])), Wider(gap', GapOf(f)));
        GapsAlike(strip, es[1..], g, g');
        AlikeWhenKept(strip, es, f, gap, gap');
      }
    }
  }

  lemma KeptElement(strip: Strip, es: seq<Elem>)
    requires IsSound(strip) && AddsNoBreak(strip) && AllProper(es) && es != [] && AllProper(es[1..]) && !Goes(strip, es)
    ensures |EditElem(strip, es[0])| == 1
    ensures var f := EditElem(strip, es[0])[0];
            && EditElem(strip, es[0]) == [f] && EditElems(strip, es) == [f] + EditElems(strip, es[1..])
            && (f == es[0] || (f.LineComment? && es[0].LineComment?) || (f.BlockComment? && es[0].BlockComment?))
            && (GapOf(f).Broken? ==> GapOf(es[0]).Broken?) && (GapOf(f).Touching? <==> GapOf(es[0]).Touching?)
  {
    hide IsComment, HasBreak, IsSound, AddsNoBreak;
    EditedElementStart(strip, es[0], "");
    if es[0].BlockComment? { EditedBlockBreaks(strip, es[0].text); }
  }

  lemma RewritesAddNoBreak()
    ensures AddsNoBreak(ChangeOf)
  {
    forall t, r | ChangeOf(Block, t) == Rewritten(r) && HasBreak(r) ensures HasBreak(t) {
      ChangeIsRepair(Block, t);
      var k :| 0 <= k < |r| && IsLineTerminator(r[k]);
      RewriteChars(t, r[k]);
      var j :| 0 <= j < |t| && t[j] == r[k];
      assert IsLineTerminator(t[j]);
    }
  }

  lemma ChangeIsRepair(kind: CommentType, t: string)
    requires ChangeOf(kind, t).Rewritten?
    ensures ChangeOf(kind, t).text == RepairPunctuation(StripIds(t))
  {
  }

  lemma RewriteChars(t: string, c: char)
    requires c in RepairPunctuation(StripIds(t)) && c != ' '
    ensures c in t
  {
    PureRuleIsGentle();
    LabelRuleIsGentle();
    CitationRuleIsGentle();
    PunctuationRuleIsGentle();
    var a := Replace(PURE_RULE, t);
    var b := Replace(LABEL_RULE, a);
    var d := Replace(CITATION_RULE, b);
    ReplaceChars(PUNCTUATION_RULE, d, 0, c);
    ReplaceChars(CITATION_RULE, b, 0, c);
    ReplaceChars(LABEL_RULE, a, 0, c);
    ReplaceChars(PURE_RULE, t, 0, c);
  }

  // ----- the promise of the strip -----

  /** The elements of a source that parses. */
  function ElemsOf(lang: Language, source: string): (es: seq<Elem>)
    requires Parse(lang, source).Some?
    ensures WellPlaced(es)
  {
    LexIsWellPlaced(source, lang.goal, [], Touching);
    Parse(lang, source).value.elems
  }

  /** No rewritten block comment of the source closes early. */
  predicate NoEarlyClose(lang: Language, source: string)
    requires Parse(lang, source).Some?
  {
    AllCloseAtEnd(ChangeOf, ElemsOf(lang, source))
  }

  /** Every gap of the source that held a line break still holds one after the rewrites. */
  predicate NoLostBreak(lang: Language, source: string)
    requires Parse(lang, source).Some?
  {
    BreaksSurvive(ChangeOf, ElemsOf(lang, source), false, false)
  }

  /** Does lexing the output give the source's code, each piece with the gap it had? */
  predicate KeepsCode(lang: Language, source: string)
    requires Parse(lang, source).Some?
  {
    var out := Lex(Stripped(lang, source), lang.goal);
    out.Some? && ItemsOf(out.value, Touching) == ItemsOf(ElemsOf(lang, source), Touching)
  }

  /** What is left of every rewritten block comment is comments and white space. */
  predicate SpillsNoCode(lang: Language, source: string)
    requires Parse(lang, source).Some?
  {
    AllStayGaps(ChangeOf, ElemsOf(lang, source))
  }

  /** It is when none closes early. */
  lemma ClosedSpillsNoCode(lang: Language, source: string)
    requires Parse(lang, source).Some? && NoEarlyClose(lang, source)
    ensures SpillsNoCode(lang, source)
  {
    ChangesAreSound();
    ClosedStayGaps(ChangeOf, ElemsOf(lang, source));
  }

  /** Where a rewritten block comment spills code, that code begins unlike the source's next piece. */
  predicate SpillsStandOut(lang: Language, source: string)
    requires Parse(lang, source).Some?
  {
    AllStandOut(ChangeOf, ElemsOf(lang, source))
  }

  lemma NoSpillStandsOut(lang: Language, source: string)
    requires Parse(lang, source).Some? && SpillsNoCode(lang, source)
    ensures SpillsStandOut(lang, source)
  {
    StayingStandsOut(ChangeOf, ElemsOf(lang, source));
  }

  /**
   * Nothing outside a comment changes: the output has the same code with the same gaps exactly when
   * no rewritten block comment spills code and no gap loses its last line break; as long as code
   * that is spilled does not begin like the code it comes before, and the edits make no sentinel line.
   */
  lemma StripKeepsCodeExactly(lang: Language, source: string)
    requires Parse(lang, source).Some? && SpillsStandOut(lang, source)
    requires MakesNoSentinel(ChangeOf, source, ElemsOf(lang, source))
    ensures KeepsCode(lang, source) <==> SpillsNoCode(lang, source) && NoLostBreak(lang, source)
  {
    var es := ElemsOf(lang, source);
    ChangesAreSound();
    RewritesAddNoBreak();
    FilterDropsOnlyEmptied(ChangeOf, lang, source);
    GapsAlike(ChangeOf, es, Touching, Touching);
    if KeepsCode(lang, source) {
      LexShowsSpills(ChangeOf, source, lang.goal, [], Touching, Touching);
      LexShowsGaps(ChangeOf, source, lang.goal, [], Touching, Touching);
    }
    if SpillsNoCode(lang, source) && NoLostBreak(lang, source) {
      LexEdited(ChangeOf, source, lang.goal, [], Touching, Touching);
    }
  }
}
