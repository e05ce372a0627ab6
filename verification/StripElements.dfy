/**
 * The strip as a change to input elements: the simple form that `stripFile`'s character ranges
 * come down to.
 */
module StripElements {
  import opened Options
  import opened Regex
  import opened Text
  import opened Lexer
  import opened WorkItemIds
  import opened StripText
  import opened StripEdits

  // ----- what lexing guarantees about neighbours -----

  predicate IsProper(e: Elem) {
    match e
    case White(c) => IsWhiteSpace(c)
    case Terminator(c) => IsLineTerminator(c)
    case LineComment(t) => IsComment(Line, t)
    case BlockComment(t) => IsComment(Block, t)
    case Code(t) => t != ""
  }

  /** A line comment runs up to a line terminator; code before a gap does not end in white space. */
  predicate MayPrecede(e: Elem, next: Elem) {
    && (e.LineComment? ==> next.Terminator?)
    && (e.Code? && e.text != "" && !next.Code? ==> !IsSpace(e.text[|e.text| - 1]))
  }

  predicate AllProper(es: seq<Elem>) {
    forall k :: 0 <= k < |es| ==> IsProper(es[k])
  }

  predicate WellPlaced(es: seq<Elem>) {
    && AllProper(es)
    && (forall k :: 0 < k < |es| ==> MayPrecede(es[k - 1], es[k]))
  }

  predicate IsClosing(lit: Literal, c: char) {
    match lit
    case InString(q) => c == q
    case InTemplate => c == '`' || c == '{'
    case InRegExp(_) => c == '/'
    case InJsxString(q) => c == q
    case InBlockComment => c == '/'
  }

  lemma {:induction false} CloseEndsIn(lit: Literal, s: string, k: nat)
    requires Close(lit, s, k).Some?
    ensures IsClosing(lit, s[Close(lit, s, k).value - 1])
    ensures lit.InBlockComment? ==> Close(lit, s, k).value >= k + 2 && s[Close(lit, s, k).value - 2] == '*'
    decreases |s| - k
  {
    var c := s[k];
    match lit
    case InString(q) =>
      if c != q {
        if c == '\\' {
          if k + 2 < |s| && s[k + 1] == '\r' && s[k + 2] == '\n' { CloseEndsIn(lit, s, k + 3); }
          else { CloseEndsIn(lit, s, k + 2); }
        } else { CloseEndsIn(lit, s, k + 1); }
      }
    case InTemplate =>
      if c == '\\' { CloseEndsIn(lit, s, k + 2); }
      else if c != '`' && !(c == '$' && k + 1 < |s| && s[k + 1] == '{') { CloseEndsIn(lit, s, k + 1); }
    case InRegExp(inClass) =>
      if c == '\\' { CloseEndsIn(lit, s, k + 2); }
      else if c != '/' || inClass {
        CloseEndsIn(InRegExp(if c == '[' then true else if c == ']' then false else inClass), s, k + 1);
      }
    case InJsxString(q) =>
      if c != q { CloseEndsIn(lit, s, k + 1); }
    case InBlockComment =>
      if !(c == '*' && k + 1 < |s| && s[k + 1] == '/') { CloseEndsIn(lit, s, k + 1); }
  }

  lemma ScanIsProper(s: string, goal: Goal)
    requires s != "" && Scan(s, goal).Some?
    ensures IsProper(Scan(s, goal).value)
  {
    var e := Scan(s, goal).value;
    match e
    case LineComment(t) =>
      var n := EndOfLine(s, 2);
      assert t == s[..n];
    case BlockComment(t) => CloseEndsIn(InBlockComment, s, 2);
    case _ =>
  }

  /** Code that ends in white space is JSX text, and only code can follow that. */
  lemma ScanMayPrecede(s: string, goal: Goal, nextGoal: Goal)
    requires s != "" && Scan(s, goal).Some?
    requires |TextOf(Scan(s, goal).value)| < |s|
    requires !Scan(s, goal).value.Code? ==> nextGoal == goal
    requires Scan(s[|TextOf(Scan(s, goal).value)|..], nextGoal).Some?
    ensures MayPrecede(Scan(s, goal).value, Scan(s[|TextOf(Scan(s, goal).value)|..], nextGoal).value)
  {
    hide Close;
    var e := Scan(s, goal).value;
    var rest := s[|TextOf(e)|..];
    assert rest[0] == s[|TextOf(e)|];
    if e.Code? && goal.JsxChildren? && s[0] !in "{<" {
      assert rest[0] in "{<";
      assert rest[0] == '{' || rest[0] == '<';
    } else if e.Code? && Opening(s[0], goal).Some? {
      CloseEndsIn(Opening(s[0], goal).value, s, 1);
    }
    if e.LineComment? {
      assert IsLineTerminator(rest[0]);
    }
  }

  lemma {:induction false} LexIsWellPlaced(s: string, goal: seq<Item> -> Goal, items: seq<Item>, gap: Gap)
    requires LexFrom(s, goal, items, gap).Some?
    ensures WellPlaced(LexFrom(s, goal, items, gap).value)
    ensures s != "" ==> LexFrom(s, goal, items, gap).value != []
                        && Some(LexFrom(s, goal, items, gap).value[0]) == Scan(s, goal(items))
    decreases |s|
  {
    if s != "" {
      var e := Scan(s, goal(items)).value;
      var rest := s[|TextOf(e)|..];
      ScanIsProper(s, goal(items));
      var nextItems := if e.Code? then items + [Item(e.text, gap)] else items;
      var nextGap := if e.Code? then Touching else Wider(gap, GapOf(e));
      LexIsWellPlaced(rest, goal, nextItems, nextGap);
      if rest != "" { ScanMayPrecede(s, goal(items), goal(nextItems)); }
    }
  }

  // ----- the strip on elements -----

  /** What is left of a rewritten comment once its emptied lines are dropped. */
  function Cleared(original: string, text: string): string {
    Join(Without(MarkLines(Lines(original), Lines(text)), HUSK))
  }

  function ClearedEdits(edits: seq<Edit>): (cleared: seq<Edit>)
    ensures |cleared| == |edits|
  {
    seq(|edits|, k requires 0 <= k < |edits| => edits[k].(text := Cleared(edits[k].original, edits[k].text)))
  }

  /** A line comment that goes entirely, after nothing but blanks. */
  predicate RemovalAhead(strip: Strip, es: seq<Elem>)
    requires AllProper(es)
  {
    es != [] &&
    assert IsProper(es[0]);
    match es[0]
    case LineComment(t) => strip(Line, t).Removed?
    case White(c) => IsBlank(c) && RemovalAhead(strip, es[1..])
    case _ => false
  }

  /** The element as the strip leaves it: rewritten, gone, or the same. */
  function EditElem(strip: Strip, e: Elem): seq<Elem>
    requires IsProper(e)
  {
    match e
    case LineComment(t) =>
      (match strip(Line, t)
       case Unchanged => [e]
       case Rewritten(r) => [LineComment(Cleared(t, r))]
       case Removed => [])
    case BlockComment(t) =>
      (match strip(Block, t)
       case Rewritten(r) => [BlockComment(Cleared(t, r))]
       case _ => [e])
    case _ => [e]
  }

  /** A blank or line feed that goes with the line comment it leads up to. */
  predicate GoesWithNext(strip: Strip, e: Elem, next: seq<Elem>)
    requires AllProper(next)
  {
    RemovalAhead(strip, next) && ((e.White? && IsBlank(e.c)) || (e.Terminator? && e.c == '\n'))
  }

  function EditElems(strip: Strip, es: seq<Elem>): seq<Elem>
    requires AllProper(es)
  {
    if es == [] then []
    else (if GoesWithNext(strip, es[0], es[1..]) then [] else EditElem(strip, es[0])) + EditElems(strip, es[1..])
  }

  // ----- ranges and elements agree -----

  lemma CommentsOfFirst(source: string, es: seq<Elem>, at: nat)
    requires es != [] && IsProper(es[0]) && at + |TextOf(es[0])| <= |source|
    requires source[at..at + |TextOf(es[0])|] == TextOf(es[0])
    ensures var later := CommentsOf(es[1..], at + |TextOf(es[0])|);
            || CommentsOf(es, at) == later
            || exists c :: Lies(source, c) && CommentsOf(es, at) == [c] + later
  {
    var next := at + |TextOf(es[0])|;
    if es[0].LineComment? { assert Lies(source, Comment(Line, at, next)); }
    if es[0].BlockComment? { assert Lies(source, Comment(Block, at, next)); }
  }

  lemma {:induction false} CommentsLie(source: string, es: seq<Elem>, at: nat)
    requires at <= |source| && source[at..] == Unlex(es)
    requires AllProper(es)
    ensures forall k :: 0 <= k < |CommentsOf(es, at)| ==> Lies(source, CommentsOf(es, at)[k])
  {
    hide IsComment;
    if es != [] {
      var t := TextOf(es[0]);
      var next := at + |t|;
      FirstElement(source, es, at);
      CommentsLie(source, es[1..], next);
      CommentsOfFirst(source, es, at);
    }
  }

  lemma {:induction false} BackOverBlanksFrom(source: string, start: nat, b: nat)
    requires b <= start <= |source|
    requires forall k :: b <= k < start ==> IsBlank(source[k])
    requires b > 0 ==> !IsBlank(source[b - 1])
    ensures BackOverBlanks(source, start) == b
  {
    if start > b { BackOverBlanksFrom(source, start - 1, b); }
  }

  /** The test that nothing but blanks precedes on the line adds nothing: the newline is right there. */
  lemma LastLineAfterNewline(source: string, b: nat)
    requires 0 < b <= |source| && source[b - 1] == '\n'
    ensures LastLineIsBlank(source[..b])
  {
    assert source[..b] == source[..b - 1] + "\n" + "";
    LinesAcrossBreak(source[..b - 1], "");
  }

  lemma WidenedStartIs(source: string, start: nat)
    requires start <= |source|
    ensures var b := BackOverBlanks(source, start);
            WidenedStart(source, start) == if b > 0 && source[b - 1] == '\n' then b - 1 else b
  {
    var b := BackOverBlanks(source, start);
    if b > 0 && source[b - 1] == '\n' { LastLineAfterNewline(source, b); }
  }

  lemma OrderedFromEarlier(edits: seq<Edit>, from: nat, to: nat, length: nat)
    requires from <= to && Ordered(edits, to, length)
    ensures to <= length && Ordered(edits, from, length)
  {
    OrderedFits(edits, to, length);
  }

  lemma PrefixAndRest(s: string, a: nat, b: nat, c: nat, text: string, rest: string)
    requires a <= b <= c <= |s|
    ensures s[a..c] + text + rest == s[a..b] + (s[b..c] + text + rest)
  {
    SliceSplit(s, a, b, c);
  }

  /** Edits that start later leave what comes before them alone. */
  lemma RangesAfter(source: string, edits: seq<Edit>, from: nat, to: nat)
    requires from <= to && Ordered(edits, to, |source|)
    ensures to <= |source| && Ordered(edits, from, |source|)
    ensures ReplaceRanges(source, edits, from) == source[from..to] + ReplaceRanges(source, edits, to)
  {
    OrderedFromEarlier(edits, from, to, |source|);
    if edits == [] {
      SliceSplit(source, from, to, |source|);
    } else {
      OrderedFits(edits, to, |source|);
      PrefixAndRest(source, from, to, edits[0].start, edits[0].text,
                    ReplaceRanges(source, edits[1..], edits[0].end));
    }
  }

  lemma SliceSplit(s: string, a: nat, b: nat, c: nat)
    requires a <= b <= c <= |s|
    ensures s[a..c] == s[a..b] + s[b..c]
  {
  }

  /**
   * With a removal ahead, the first edit reaches back over the blanks before `at` and one line
   * feed; without one, no edit reaches back at all. Either way the replaced ranges spell the
   * edited elements.
   */
  ghost predicate RangesSpell(strip: Strip, source: string, es: seq<Elem>, at: nat, edits: seq<Edit>)
    requires at <= |source|
    requires AllProper(es)
  {
    if RemovalAhead(strip, es) then
      && edits != [] && edits[0].text == ""
      && edits[0].start == WidenedStart(source, at) && at <= edits[0].end
      && Ordered(edits[1..], edits[0].end, |source|)
      && ReplaceRanges(source, edits[1..], edits[0].end) == Unlex(EditElems(strip, es))
    else
      Ordered(edits, at, |source|) && ReplaceRanges(source, edits, at) == Unlex(EditElems(strip, es))
  }

  lemma WidenedAfterBlank(source: string, at: nat)
    requires at < |source| && IsBlank(source[at])
    ensures WidenedStart(source, at + 1) == WidenedStart(source, at)
  {
    WidenedStartIs(source, at);
    WidenedStartIs(source, at + 1);
  }

  lemma WidenedAfterNewline(source: string, at: nat)
    requires at < |source| && source[at] == '\n'
    ensures WidenedStart(source, at + 1) == at
  {
    WidenedStartIs(source, at + 1);
  }

  lemma WidenedAfterOther(source: string, at: nat)
    requires 0 < at <= |source| && !IsBlank(source[at - 1]) && source[at - 1] != '\n'
    ensures WidenedStart(source, at) == at
  {
    WidenedStartIs(source, at);
  }

  /** An edit that deletes a comment has nothing to mark or clear. */
  lemma ClearedNothing(original: string)
    ensures Cleared(original, "") == ""
  {
    assert !IsHusk("");
    assert MarkLines(Lines(original), Lines("")) == [""];
    assert "" != HUSK;
    assert Without([""], HUSK) == [""] by { assert [""][1..] == []; }
  }

  lemma UnlexCons(e: Elem, es: seq<Elem>)
    ensures Unlex([e] + es) == TextOf(e) + Unlex(es)
  {
    assert ([e] + es)[1..] == es;
  }

  lemma WellPlacedTail(es: seq<Elem>)
    requires WellPlaced(es) && es != []
    ensures WellPlaced(es[1..])
    ensures |es| > 1 ==> MayPrecede(es[0], es[1])
    ensures IsProper(es[0])
  {
    forall k | 0 < k < |es[1..]| ensures MayPrecede(es[1..][k - 1], es[1..][k]) {
      assert MayPrecede(es[k], es[k + 1]);
    }
  }

  /** The edits still to come reach back no further than `at`. */
  ghost predicate RangesSpellPlainly(strip: Strip, source: string, es: seq<Elem>, at: nat, edits: seq<Edit>)
    requires at <= |source| && AllProper(es)
  {
    Ordered(edits, at, |source|) && ReplaceRanges(source, edits, at) == Unlex(EditElems(strip, es))
  }

  /** A removal right after an element that stays reaches back to that element and no further. */
  lemma RemovalStopsAt(strip: Strip, source: string, es: seq<Elem>, at: nat, edits: seq<Edit>)
    requires WellPlaced(es) && es != [] && at + |TextOf(es[0])| <= |source|
    requires source[at..at + |TextOf(es[0])|] == TextOf(es[0])
    requires RemovalAhead(strip, es[1..]) && !GoesWithNext(strip, es[0], es[1..])
    requires RangesSpell(strip, source, es[1..], at + |TextOf(es[0])|, edits)
    ensures RangesSpellPlainly(strip, source, es[1..], at + |TextOf(es[0])|, edits)
  {
    hide WidenedStart, EditElems, WellPlaced;
    WellPlacedTail(es);
    var next := at + |TextOf(es[0])|;
    var e := es[0];
    assert !e.LineComment?;
    assert source[next - 1] == TextOf(e)[|TextOf(e)| - 1];
    assert !IsBlank(source[next - 1]) && source[next - 1] != '\n';
    WidenedAfterOther(source, next);
    assert source[next..next] == "";
  }

  lemma ElementGoes(strip: Strip, es: seq<Elem>)
    requires AllProper(es) && es != []
    requires GoesWithNext(strip, es[0], es[1..]) || EditElem(strip, es[0]) == []
    ensures EditElems(strip, es) == EditElems(strip, es[1..])
  {
    assert [] + EditElems(strip, es[1..]) == EditElems(strip, es[1..]);
  }

  lemma EmptyRangeFirst(source: string, edits: seq<Edit>, at: nat)
    requires edits != [] && edits[0].text == "" && edits[0].start == at <= edits[0].end
    requires Ordered(edits[1..], edits[0].end, |source|)
    ensures Ordered(edits, at, |source|) && at <= |source|
    ensures ReplaceRanges(source, edits, at) == ReplaceRanges(source, edits[1..], edits[0].end)
  {
    OrderedFits(edits[1..], edits[0].end, |source|);
    var rest := ReplaceRanges(source, edits[1..], edits[0].end);
    assert source[at..at] + "" + rest == rest;
  }

  lemma NewlineGoes(strip: Strip, source: string, es: seq<Elem>, at: nat, edits: seq<Edit>)
    requires AllProper(es) && es != [] && at < |source|
    requires es[0].Terminator? && es[0].c == '\n' && source[at] == '\n' && RemovalAhead(strip, es[1..])
    requires RangesSpell(strip, source, es[1..], at + 1, edits)
    ensures RangesSpell(strip, source, es, at, edits)
  {
    WidenedAfterNewline(source, at);
    ElementGoes(strip, es);
    hide WidenedStart, EditElems, Ordered, ReplaceRanges;
    EmptyRangeFirst(source, edits, at);
  }

  lemma BlankGoes(strip: Strip, source: string, es: seq<Elem>, at: nat, edits: seq<Edit>)
    requires AllProper(es) && es != [] && at < |source|
    requires es[0].White? && IsBlank(es[0].c) && source[at] == es[0].c && RemovalAhead(strip, es[1..])
    requires RangesSpell(strip, source, es[1..], at + 1, edits)
    ensures RangesSpell(strip, source, es, at, edits)
  {
    WidenedAfterBlank(source, at);
    ElementGoes(strip, es);
  }

  predicate IsEdited(strip: Strip, e: Elem)
    requires IsProper(e)
  {
    match e
    case LineComment(t) => !strip(Line, t).Unchanged?
    case BlockComment(t) => strip(Block, t).Rewritten?
    case _ => false
  }

  lemma ElementStays(strip: Strip, source: string, es: seq<Elem>, at: nat, edits: seq<Edit>)
    requires AllProper(es) && es != [] && at + |TextOf(es[0])| <= |source|
    requires source[at..at + |TextOf(es[0])|] == TextOf(es[0])
    requires !GoesWithNext(strip, es[0], es[1..]) && !IsEdited(strip, es[0])
    requires RangesSpellPlainly(strip, source, es[1..], at + |TextOf(es[0])|, edits)
    ensures RangesSpell(strip, source, es, at, edits)
  {
    hide WidenedStart, ReplaceRanges;
    RangesAfter(source, edits, at, at + |TextOf(es[0])|);
    UnlexCons(es[0], EditElems(strip, es[1..]));
  }

  lemma FirstRange(source: string, e: Edit, edits: seq<Edit>, from: nat)
    requires from <= e.start <= e.end && Ordered(edits, e.end, |source|)
    ensures Ordered([e] + edits, from, |source|) && e.end <= |source|
    ensures ReplaceRanges(source, [e] + edits, from)
         == source[from..e.start] + e.text + ReplaceRanges(source, edits, e.end)
  {
    assert ([e] + edits)[1..] == edits;
    OrderedFits(edits, e.end, |source|);
  }

  lemma EditedFirst(strip: Strip, es: seq<Elem>)
    requires AllProper(es) && es != [] && !GoesWithNext(strip, es[0], es[1..])
    requires |EditElem(strip, es[0])| == 1
    ensures EditElems(strip, es) == [EditElem(strip, es[0])[0]] + EditElems(strip, es[1..])
  {
    hide GoesWithNext, EditElem;
  }

  lemma CommentRewritten(strip: Strip, source: string, es: seq<Elem>, at: nat, e: Edit, edits: seq<Edit>)
    requires AllProper(es) && es != [] && at + |TextOf(es[0])| <= |source|
    requires e.start == at && e.end == at + |TextOf(es[0])|
    requires es[0].LineComment? || es[0].BlockComment?
    requires es[0].LineComment? ==> strip(Line, es[0].text).Rewritten?
    requires |EditElem(strip, es[0])| == 1 && TextOf(EditElem(strip, es[0])[0]) == e.text
    requires RangesSpellPlainly(strip, source, es[1..], at + |TextOf(es[0])|, edits)
    ensures RangesSpell(strip, source, es, at, [e] + edits)
  {
    hide WidenedStart, EditElem, IsProper, TextOf, Unlex, IsComment;
    FirstRange(source, e, edits, at);
    EditedFirst(strip, es);
    UnlexCons(EditElem(strip, es[0])[0], EditElems(strip, es[1..]));
    assert source[at..at] == "";
  }

  lemma CommentRemoved(strip: Strip, source: string, es: seq<Elem>, at: nat, e: Edit, edits: seq<Edit>)
    requires AllProper(es) && es != [] && at + |TextOf(es[0])| <= |source|
    requires es[0].LineComment? && strip(Line, es[0].text).Removed?
    requires e.start == WidenedStart(source, at) && e.end == at + |TextOf(es[0])| && e.text == ""
    requires RangesSpellPlainly(strip, source, es[1..], at + |TextOf(es[0])|, edits)
    ensures RangesSpell(strip, source, es, at, [e] + edits)
  {
    assert ([e] + edits)[1..] == edits;
    ElementGoes(strip, es);
  }

  /** The edits of a list of elements that lies at `at`, with emptied lines already dropped. */
  function EditsAt(strip: Strip, source: string, es: seq<Elem>, at: nat): seq<Edit>
    requires at <= |source| && source[at..] == Unlex(es) && AllProper(es)
  {
    CommentsLie(source, es, at);
    ClearedEdits(EditsOf(strip, source, CommentsOf(es, at)))
  }

  lemma FirstElement(source: string, es: seq<Elem>, at: nat)
    requires at <= |source| && source[at..] == Unlex(es) && es != [] && AllProper(es)
    ensures at + |TextOf(es[0])| <= |source|
    ensures source[at..at + |TextOf(es[0])|] == TextOf(es[0])
    ensures source[at + |TextOf(es[0])|..] == Unlex(es[1..])
    ensures AllProper(es[1..])
  {
    var t := TextOf(es[0]);
    assert source[at..][..|t|] == t;
    assert source[at..][|t|..] == Unlex(es[1..]);
  }

  lemma CommentsOfOther(es: seq<Elem>, at: nat)
    requires es != [] && !es[0].LineComment? && !es[0].BlockComment?
    ensures CommentsOf(es, at) == CommentsOf(es[1..], at + |TextOf(es[0])|)
  {
  }

  lemma EditsAtNonComment(strip: Strip, source: string, es: seq<Elem>, at: nat)
    requires at <= |source| && source[at..] == Unlex(es) && es != [] && AllProper(es)
    requires !IsEdited(strip, es[0])
    requires forall t :: strip(Block, t) != Removed
    ensures at + |TextOf(es[0])| <= |source| && source[at + |TextOf(es[0])|..] == Unlex(es[1..])
    ensures AllProper(es[1..])
    ensures EditsAt(strip, source, es, at) == EditsAt(strip, source, es[1..], at + |TextOf(es[0])|)
  {
    hide WidenedStart, Cleared, Unlex, EditsOf, CommentsOf, ClearedEdits;
    FirstElement(source, es, at);
    CommentsLie(source, es, at);
    var next := at + |TextOf(es[0])|;
    CommentsLie(source, es[1..], next);
    if es[0].LineComment? || es[0].BlockComment? {
      var c := Comment(if es[0].LineComment? then Line else Block, at, next);
      CommentsOfComment(es, at);
      assert EditsFor(strip, source, c) == [];
      EditsOfCons(strip, source, c, CommentsOf(es[1..], next));
      var later := EditsOf(strip, source, CommentsOf(es[1..], next));
      assert [] + later == later;
    } else {
      CommentsOfOther(es, at);
    }
  }

  /** The edit the strip makes to one edited comment. */
  function OwnEdit(strip: Strip, source: string, e: Elem, at: nat): Edit
    requires IsProper(e) && IsEdited(strip, e) && at <= |source|
  {
    var change := strip(if e.LineComment? then Line else Block, TextOf(e));
    var end := at + |TextOf(e)|;
    if change.Removed? then Edit(WidenedStart(source, at), end, "", TextOf(e))
    else Edit(at, end, Cleared(TextOf(e), change.text), TextOf(e))
  }

  lemma OwnEditIs(strip: Strip, source: string, e: Elem, at: nat)
    requires IsProper(e) && IsEdited(strip, e) && at + |TextOf(e)| <= |source|
    requires source[at..at + |TextOf(e)|] == TextOf(e)
    ensures var c := Comment(if e.LineComment? then Line else Block, at, at + |TextOf(e)|);
            Lies(source, c) && ClearedEdits(EditsFor(strip, source, c)) == [OwnEdit(strip, source, e, at)]
  {
    hide WidenedStart, Cleared;
    ClearedNothing(TextOf(e));
  }

  lemma ClearedConcat(a: seq<Edit>, b: seq<Edit>)
    ensures ClearedEdits(a + b) == ClearedEdits(a) + ClearedEdits(b)
  {
    hide Cleared;
    var whole := ClearedEdits(a + b);
    forall k | 0 <= k < |a| + |b| ensures whole[k] == (ClearedEdits(a) + ClearedEdits(b))[k] {
      assert (a + b)[k] == if k < |a| then a[k] else b[k - |a|];
    }
  }

  lemma EditsOfCons(strip: Strip, source: string, c: Comment, cs: seq<Comment>)
    requires Lies(source, c) && forall k :: 0 <= k < |cs| ==> Lies(source, cs[k])
    ensures EditsOf(strip, source, [c] + cs) == EditsFor(strip, source, c) + EditsOf(strip, source, cs)
  {
    assert ([c] + cs)[1..] == cs;
  }

  lemma CommentsOfComment(es: seq<Elem>, at: nat)
    requires es != [] && (es[0].LineComment? || es[0].BlockComment?)
    ensures var next := at + |TextOf(es[0])|;
            CommentsOf(es, at)
            == [Comment(if es[0].LineComment? then Line else Block, at, next)] + CommentsOf(es[1..], next)
  {
  }

  lemma EditsAtComment(strip: Strip, source: string, es: seq<Elem>, at: nat)
    requires at <= |source| && source[at..] == Unlex(es) && es != [] && AllProper(es)
    requires IsEdited(strip, es[0])
    requires at + |TextOf(es[0])| <= |source| && source[at + |TextOf(es[0])|..] == Unlex(es[1..])
    requires AllProper(es[1..])
    ensures EditsAt(strip, source, es, at)
         == [OwnEdit(strip, source, es[0], at)] + EditsAt(strip, source, es[1..], at + |TextOf(es[0])|)
  {
    hide WidenedStart, Cleared, IsComment, Unlex, EditsFor, EditsOf, CommentsOf, ClearedEdits;
    FirstElement(source, es, at);
    CommentsLie(source, es, at);
    var next := at + |TextOf(es[0])|;
    CommentsLie(source, es[1..], next);
    var c := Comment(if es[0].LineComment? then Line else Block, at, next);
    var later := CommentsOf(es[1..], next);
    CommentsOfComment(es, at);
    OwnEditIs(strip, source, es[0], at);
    calc {
      EditsAt(strip, source, es, at);
      ClearedEdits(EditsOf(strip, source, [c] + later));
      { EditsOfCons(strip, source, c, later); }
      ClearedEdits(EditsFor(strip, source, c) + EditsOf(strip, source, later));
      { ClearedConcat(EditsFor(strip, source, c), EditsOf(strip, source, later)); }
      [OwnEdit(strip, source, es[0], at)] + ClearedEdits(EditsOf(strip, source, later));
    }
  }

  /**
   * Editing character ranges is editing elements: the edits are ordered and disjoint, no widening
   * crosses the end of the element before, and replacing the ranges all at once spells the edited
   * elements.
   */
  lemma {:induction false} RangesMatchElements(strip: Strip, source: string, es: seq<Elem>, at: nat)
    requires at <= |source| && source[at..] == Unlex(es) && WellPlaced(es)
    requires forall t :: strip(Block, t) != Removed
    ensures RangesSpell(strip, source, es, at, EditsAt(strip, source, es, at))
    decreases |es|
  {
    hide EditsAt, RangesSpell;
    if es == [] {
      NoElements(strip, source, at);
    } else {
      WellPlacedTail(es);
      FirstElement(source, es, at);
      RangesMatchElements(strip, source, es[1..], at + |TextOf(es[0])|);
      if GoesWithNext(strip, es[0], es[1..]) {
        GapElementStep(strip, source, es, at);
      } else {
        OtherElementStep(strip, source, es, at);
      }
    }
  }

  lemma NoElements(strip: Strip, source: string, at: nat)
    requires at <= |source| && source[at..] == ""
    ensures EditsAt(strip, source, [], at) == []
    ensures RangesSpell(strip, source, [], at, [])
  {
    assert Unlex([]) == "";
  }

  lemma GapElementStep(strip: Strip, source: string, es: seq<Elem>, at: nat)
    requires at <= |source| && source[at..] == Unlex(es) && WellPlaced(es) && es != []
    requires forall t :: strip(Block, t) != Removed
    requires AllProper(es[1..]) && GoesWithNext(strip, es[0], es[1..])
    requires at + |TextOf(es[0])| <= |source| && source[at + |TextOf(es[0])|..] == Unlex(es[1..])
    requires RangesSpell(strip, source, es[1..], at + |TextOf(es[0])|,
                         EditsAt(strip, source, es[1..], at + |TextOf(es[0])|))
    ensures RangesSpell(strip, source, es, at, EditsAt(strip, source, es, at))
  {
    FirstElement(source, es, at);
    EditsAtNonComment(strip, source, es, at);
    var rest := EditsAt(strip, source, es[1..], at + 1);
    assert source[at] == source[at..at + 1][0];
    if es[0].White? { BlankGoes(strip, source, es, at, rest); } else { NewlineGoes(strip, source, es, at, rest); }
  }

  lemma OtherElementStep(strip: Strip, source: string, es: seq<Elem>, at: nat)
    requires at <= |source| && source[at..] == Unlex(es) && WellPlaced(es) && es != []
    requires forall t :: strip(Block, t) != Removed
    requires AllProper(es[1..]) && !GoesWithNext(strip, es[0], es[1..])
    requires at + |TextOf(es[0])| <= |source| && source[at + |TextOf(es[0])|..] == Unlex(es[1..])
    requires RangesSpell(strip, source, es[1..], at + |TextOf(es[0])|,
                         EditsAt(strip, source, es[1..], at + |TextOf(es[0])|))
    ensures RangesSpell(strip, source, es, at, EditsAt(strip, source, es, at))
  {
    FirstElement(source, es, at);
    var rest := EditsAt(strip, source, es[1..], at + |TextOf(es[0])|);
    if RemovalAhead(strip, es[1..]) { RemovalStopsAt(strip, source, es, at, rest); }
    if !IsEdited(strip, es[0]) {
      EditsAtNonComment(strip, source, es, at);
      ElementStays(strip, source, es, at, rest);
    } else {
      EditedElementStep(strip, source, es, at);
    }
  }

  lemma OwnEditReads(strip: Strip, source: string, e: Elem, at: nat)
    requires IsProper(e) && IsEdited(strip, e) && at <= |source| && forall t :: strip(Block, t) != Removed
    ensures e.LineComment? || e.BlockComment?
    ensures var own := OwnEdit(strip, source, e, at);
            own.end == at + |TextOf(e)| &&
            if e.LineComment? && strip(Line, e.text).Removed? then
              own.start == WidenedStart(source, at) && own.text == ""
            else
              && (e.LineComment? ==> strip(Line, e.text).Rewritten?) && own.start == at
              && |EditElem(strip, e)| == 1 && TextOf(EditElem(strip, e)[0]) == own.text
  {
    hide WidenedStart, Cleared, IsComment;
  }

  lemma EditedElementStep(strip: Strip, source: string, es: seq<Elem>, at: nat)
    requires at <= |source| && source[at..] == Unlex(es) && AllProper(es) && es != []
    requires forall t :: strip(Block, t) != Removed
    requires IsEdited(strip, es[0]) && AllProper(es[1..])
    requires at + |TextOf(es[0])| <= |source| && source[at + |TextOf(es[0])|..] == Unlex(es[1..])
    requires RangesSpellPlainly(strip, source, es[1..], at + |TextOf(es[0])|,
                                EditsAt(strip, source, es[1..], at + |TextOf(es[0])|))
    ensures RangesSpell(strip, source, es, at, EditsAt(strip, source, es, at))
  {
    OwnEditReads(strip, source, es[0], at);
    EditsAtComment(strip, source, es, at);
    hide *;
    var rest := EditsAt(strip, source, es[1..], at + |TextOf(es[0])|);
    var own := OwnEdit(strip, source, es[0], at);
    if es[0].LineComment? && strip(Line, es[0].text).Removed? {
      CommentRemoved(strip, source, es, at, own, rest);
    } else {
      CommentRewritten(strip, source, es, at, own, rest);
    }
  }
}
