/**
 * What the sentinel lines and the final filter of `stripFile` come to: a sentinel always fills a
 * whole line of the output, so the filter drops the emptied lines, and every strip shortens.
 */
module StripSentinels {
  import opened Regex
  import opened Text
  import opened Lexer
  import opened Parser
  import opened WorkItemIds
  import opened StripText
  import opened StripEdits
  import opened StripElements
  import opened StripRun

  // ----- a comment's first and last lines are never husks -----

  lemma {:induction false} FirstLineStarts(t: string)
    requires |t| >= 2 && t[0] != '\n' && t[1] != '\n'
    ensures |Lines(t)[0]| >= 2 && Lines(t)[0][0] == t[0] && Lines(t)[0][1] == t[1]
    ensures |Lines(t)| == 1 ==> Lines(t)[0] == t
  {
    assert Lines(t[1..])[0][0] == t[1];
    JoinLines(t);
  }

  lemma {:induction false} LastLineEnds(t: string)
    requires |t| >= 2 && t[|t| - 2] != '\n' && t[|t| - 1] != '\n'
    ensures var l := Lines(t)[|Lines(t)| - 1];
            |l| >= 2 && l[|l| - 2] == t[|t| - 2] && l[|l| - 1] == t[|t| - 1]
  {
    if |t| == 2 {
      LinesOfOne(t);
    } else {
      LastLineEnds(t[1..]);
      assert t[1..][|t| - 3] == t[|t| - 2] && t[1..][|t| - 2] == t[|t| - 1];
    }
  }

  lemma OpeningLineIsNoHusk(kind: CommentType, l: string)
    requires |l| >= 2 && l[0] == '/'
    requires if kind.Line? then l[1] == '/' && !IsAllSpace(l[2..]) else l[1] == '*'
    ensures !IsHusk(l)
  {
    forall j | 0 < j <= |l| ensures !IsAllSpace(l[..j]) { assert l[..j][0] == '/'; }
    assert l[0..2][1] == l[1] && l[0..1][0] == l[0];
  }

  lemma ClosingLineIsNoHusk(l: string)
    requires Closes(l)
    ensures !IsHusk(l)
  {
    forall j | 0 <= j < |l| ensures !IsAllSpace(l[j..]) { assert l[j..][|l| - 1 - j] == '/'; }
    assert l[|l| - 2..|l|][0] == '*' && l[|l| - 1..|l|][0] == '/';
  }

  predicate IsAround(l: string, a: string, marker: string, b: string) {
    l == a + marker + b && IsAllSpace(a) && IsAllSpace(b)
  }

  lemma CutsAreAround(l: string, j: nat, marker: string)
    requires j <= |l| - |marker| && l[j..j + |marker|] == marker
    requires IsAllSpace(l[..j]) && IsAllSpace(l[j + |marker|..])
    ensures IsAround(l, l[..j], marker, l[j + |marker|..])
  {
    hide IsAllSpace;
    assert l == l[..j] + l[j..j + |marker|] + l[j + |marker|..];
  }

  lemma BareParts(l: string, marker: string)
    requires IsBare(l, marker)
    ensures exists a, b :: IsAround(l, a, marker, b)
  {
    var k := |marker|;
    var j :| 0 <= j <= |l| - k && l[j..j + k] == marker && IsAllSpace(l[..j]) && IsAllSpace(l[j + k..]);
    hide IsAllSpace, IsBare, IsAround;
    CutsAreAround(l, j, marker);
  }

  lemma PartsAreBare(l: string, a: string, marker: string, b: string)
    requires IsAround(l, a, marker, b)
    ensures IsBare(l, marker)
  {
    var j := |a|;
    assert l[..j] == a && l[j + |marker|..] == b && l[j..j + |marker|] == marker;
  }

  lemma BareExactly(l: string, marker: string)
    ensures IsBare(l, marker) <==> exists a, b :: IsAround(l, a, marker, b)
  {
    hide *;
    if IsBare(l, marker) { BareParts(l, marker); }
    if a, b :| IsAround(l, a, marker, b) { PartsAreBare(l, a, marker, b); }
  }

  /** A husk is a lone `//` or a lone `*` among white space. */
  lemma HuskExactly(l: string)
    ensures IsHusk(l) <==> exists a, b :: IsAround(l, a, "//", b) || IsAround(l, a, "*", b)
  {
    hide IsAround, IsBare;
    BareExactly(l, "//");
    BareExactly(l, "*");
  }

  /** The line says nothing: `//` or `*` by itself. */
  ghost predicate SaysNothing(l: string) {
    exists a, b :: IsAround(l, a, "//", b) || IsAround(l, a, "*", b)
  }

  /** A line becomes the sentinel when it says nothing now and said something at its place before. */
  lemma EmptiedExactly(before: seq<string>, after: seq<string>, k: nat)
    requires k < |after|
    ensures Emptied(before, after, k) <==> k < |before| && SaysNothing(after[k]) && !SaysNothing(before[k])
    ensures MarkLines(before, after)[k] ==
            if k < |before| && SaysNothing(after[k]) && !SaysNothing(before[k]) then "\0HUSK\0" else after[k]
  {
    hide IsHusk, SaysNothing;
    SaysNothingExactly(after[k]);
    if k < |before| { SaysNothingExactly(before[k]); }
  }

  lemma SaysNothingExactly(l: string)
    ensures IsHusk(l) <==> SaysNothing(l)
  {
    HuskExactly(l);
    hide IsHusk, IsAround;
  }

  /** An edit the strip makes: a comment gone, or shortened and still a comment of its kind. */
  ghost predicate IsSoundEdit(e: Edit) {
    && e.start + |e.original| <= e.end
    && |e.text| < |e.original|
    && (e.text == "" || exists kind :: IsRewrite(kind, e))
  }

  ghost predicate IsRewrite(kind: CommentType, e: Edit) {
    IsSoundChange(kind, e.original, Rewritten(e.text))
  }

  lemma EdgesOfLineComment(t: string)
    requires IsComment(Line, t) && !IsAllSpace(t[2..])
    ensures Lines(t) == [t] && !IsHusk(t) && t != HUSK
  {
    LinesOfOne(t);
    OpeningLineIsNoHusk(Line, t);
  }

  lemma EdgesOfBlockComment(t: string)
    requires IsComment(Block, t)
    ensures var ls := Lines(t);
            !IsHusk(ls[0]) && ls[0] != HUSK && !IsHusk(ls[|ls| - 1]) && ls[|ls| - 1] != HUSK
  {
    hide IsHusk;
    FirstLineStarts(t);
    LastLineEnds(t);
    OpeningLineIsNoHusk(Block, Lines(t)[0]);
    ClosingLineIsNoHusk(Lines(t)[|Lines(t)| - 1]);
  }

  /** Neither the first nor the last line of an edit's text becomes a sentinel. */
  lemma EdgesAreKept(e: Edit)
    requires IsSoundEdit(e)
    ensures MarkedLines(e)[0] != HUSK
    ensures MarkedLines(e)[|MarkedLines(e)| - 1] != HUSK
    ensures var before, after := Lines(e.original), Lines(e.text);
            !Emptied(before, after, 0) && !Emptied(before, after, |after| - 1)
  {
    if e.text == "" {
      assert Lines(e.text) == [""] && !IsHusk("");
    } else {
      hide IsHusk;
      var kind :| IsRewrite(kind, e);
      if kind.Line? { EdgesOfLineComment(e.text); } else { EdgesOfBlockComment(e.text); }
    }
  }

  lemma {:induction false} EditsAreSound(strip: Strip, source: string, cs: seq<Comment>)
    requires IsSound(strip) && forall k :: 0 <= k < |cs| ==> Lies(source, cs[k])
    ensures forall k :: 0 <= k < |EditsOf(strip, source, cs)| ==> IsSoundEdit(EditsOf(strip, source, cs)[k])
  {
    if cs != [] {
      EditsAreSound(strip, source, cs[1..]);
      var original := source[cs[0].start..cs[0].end];
      assert IsSoundChange(cs[0].kind, original, strip(cs[0].kind, original));
      forall k | 0 <= k < |EditsFor(strip, source, cs[0])|
        ensures IsSoundEdit(EditsFor(strip, source, cs[0])[k])
      {
        var e := EditsFor(strip, source, cs[0])[k];
        if strip(cs[0].kind, original).Rewritten? { assert IsRewrite(cs[0].kind, e); }
      }
    }
  }

  // ----- the filter -----

  lemma DropOneOf(p: string, ls: seq<string>, j: nat, q: string)
    requires 0 < j < |ls| - 1 && ls[j] == HUSK
    ensures DropLines(p + Join(ls) + q, HUSK) == DropLines(p + Join(ls[..j] + ls[j + 1..]) + q, HUSK)
  {
    hide DropLines, Join;
    var a, b := ls[..j], ls[j + 1..];
    assert ls[j..][1..] == b && ls[j..][..1] == [HUSK];
    JoinSplit(ls, j);
    JoinSplit(ls[j..], 1);
    JoinSplit(a + b, j);
    JoinOfOne(HUSK);
    assert (a + b)[..j] == a && (a + b)[j..] == b;
    MarkBetween(p, Join(a), Join(b), q);
  }

  lemma JoinOfOne(l: string)
    ensures Join([l]) == l
  {
  }

  /** Sentinels in the middle of a text go with the filter, whatever stands around the text. */
  lemma {:induction false} DropMarks(p: string, ls: seq<string>, q: string)
    requires |ls| >= 1 && ls[0] != HUSK && ls[|ls| - 1] != HUSK
    ensures DropLines(p + Join(ls) + q, HUSK) == DropLines(p + Join(Without(ls, HUSK)) + q, HUSK)
    decreases |ls|
  {
    if HUSK in ls {
      var j :| 0 <= j < |ls| && ls[j] == HUSK;
      WithoutOne(ls, j);
      DropOneOf(p, ls, j, q);
      DropMarks(p, ls[..j] + ls[j + 1..], q);
    }
  }

  lemma MarkBetween(p: string, a: string, b: string, q: string)
    ensures DropLines(p + (a + "\n" + (HUSK + "\n" + b)) + q, HUSK) == DropLines(p + (a + "\n" + b) + q, HUSK)
  {
    assert p + (a + "\n" + (HUSK + "\n" + b)) + q == (p + a) + "\n" + HUSK + "\n" + (b + q);
    assert p + (a + "\n" + b) + q == (p + a) + "\n" + (b + q);
    DropOneMark(p + a, b + q, HUSK);
  }

  lemma WithoutOne(ls: seq<string>, j: nat)
    requires j < |ls| && ls[j] == HUSK
    ensures Without(ls, HUSK) == Without(ls[..j] + ls[j + 1..], HUSK)
  {
    assert ls == ls[..j] + [HUSK] + ls[j + 1..];
    WithoutMarkBetween(ls[..j], ls[j + 1..], HUSK);
  }

  /** Filtering after the splice is dropping each edit's emptied lines before it. */
  lemma {:induction false} FilterClears(source: string, edits: seq<Edit>, from: nat, p: string)
    requires Ordered(edits, from, |source|)
    requires forall k :: 0 <= k < |edits| ==> IsSoundEdit(edits[k])
    ensures Ordered(Marked(edits), from, |source|) && Ordered(ClearedEdits(edits), from, |source|)
    ensures DropLines(p + ReplaceRanges(source, Marked(edits), from), HUSK)
         == DropLines(p + ReplaceRanges(source, ClearedEdits(edits), from), HUSK)
    decreases |edits|
  {
    hide Lines, IsHusk, Cleared, MarkedLines;
    SameRanges(edits, Marked(edits), from, |source|);
    SameRanges(edits, ClearedEdits(edits), from, |source|);
    if edits != [] {
      var e := edits[0];
      OrderedFits(edits, from, |source|);
      var gap := source[from..e.start];
      var cleared := Cleared(e.original, e.text);
      FilterClears(source, edits[1..], e.end, p + gap + cleared);
      EdgesAreKept(e);
      assert Marked(edits)[1..] == Marked(edits[1..]);
      assert ClearedEdits(edits)[1..] == ClearedEdits(edits[1..]);
      ClearFirst(p, gap, e, ReplaceRanges(source, Marked(edits[1..]), e.end),
                 ReplaceRanges(source, ClearedEdits(edits[1..]), e.end));
    }
  }

  lemma ClearFirst(p: string, gap: string, e: Edit, markedRest: string, clearedRest: string)
    requires MarkedLines(e)[0] != HUSK && MarkedLines(e)[|MarkedLines(e)| - 1] != HUSK
    requires DropLines(p + gap + Cleared(e.original, e.text) + markedRest, HUSK)
          == DropLines(p + gap + Cleared(e.original, e.text) + clearedRest, HUSK)
    ensures DropLines(p + (gap + Join(MarkedLines(e)) + markedRest), HUSK)
         == DropLines(p + (gap + Cleared(e.original, e.text) + clearedRest), HUSK)
  {
    DropMarks(p + gap, MarkedLines(e), markedRest);
    Regroup(p, gap, Join(MarkedLines(e)), markedRest);
    Regroup(p, gap, Cleared(e.original, e.text), clearedRest);
  }

  lemma Regroup(a: string, b: string, c: string, d: string)
    ensures a + (b + c + d) == a + b + c + d
  {
  }

  // ----- which lines go -----

  /** The lines of `after` the strip did not empty. */
  function Unemptied(before: seq<string>, after: seq<string>, k: nat): seq<string>
    requires k <= |after|
    decreases |after| - k
  {
    if k == |after| then []
    else (if Emptied(before, after, k) then [] else [after[k]]) + Unemptied(before, after, k + 1)
  }

  lemma {:induction false} WithoutMarks(before: seq<string>, after: seq<string>, k: nat)
    requires k <= |after| && HUSK !in after
    ensures Without(MarkLines(before, after)[k..], HUSK) == Unemptied(before, after, k)
    decreases |after| - k
  {
    hide IsHusk;
    if k < |after| {
      WithoutMarks(before, after, k + 1);
      var marked := MarkLines(before, after);
      assert marked[k..][1..] == marked[k + 1..];
      assert marked[k..][0] == marked[k];
    }
  }

  /**
   * The lines that go are exactly those the strip newly emptied, never the first or the last of a
   * comment; where the strip kept the number of lines, every line that said nothing before (a
   * deliberate ` *` separator) is still there unchanged.
   */
  lemma DroppedLinesAreTheEmptied(kind: CommentType, original: string, text: string)
    requires ChangeOf(kind, original) == Rewritten(text) && HUSK !in Lines(text)
    ensures var before, after := Lines(original), Lines(text);
            && Lines(Cleared(original, text)) == Unemptied(before, after, 0)
            && !Emptied(before, after, 0) && !Emptied(before, after, |after| - 1)
            && |after| <= |before|
            && (|after| == |before| ==>
                  forall k :: 0 <= k < |before| && IsPlain(before[k]) ==>
                    after[k] == before[k] && !Emptied(before, after, k))
  {
    hide Lines, IsHusk, Join, ChangeOf;
    ChangeIsSound(kind, original);
    var before, after := Lines(original), Lines(text);
    WithoutMarks(before, after, 0);
    assert MarkLines(before, after)[0..] == MarkLines(before, after);
    var e := Edit(0, |original|, text, original);
    assert IsRewrite(kind, e);
    EdgesAreKept(e);
    KeptLinesAreLines(before, after, 0);
    LinesOfJoin(Unemptied(before, after, 0));
    ChangeKeepsPlainLines(kind, original);
    PlainLinesAreNotEmptied(before, after);
  }

  lemma NoSentinelLine(t: string)
    requires '\0' !in t
    ensures HUSK !in Lines(t)
  {
    forall k | 0 <= k < |Lines(t)| ensures Lines(t)[k] != HUSK {
      if '\0' in Lines(t)[k] { LineChars(t, k, '\0'); }
      assert HUSK[0] == '\0';
    }
  }

  lemma ChangeKeepsPlainLines(kind: CommentType, original: string)
    requires ChangeOf(kind, original).Rewritten?
    ensures KeepsPlainLines(original, ChangeOf(kind, original).text)
  {
    RewriteKeepsPlainLines(original);
  }

  lemma PlainLinesAreNotEmptied(before: seq<string>, after: seq<string>)
    ensures forall k :: 0 <= k < |after| && k < |before| && after[k] == before[k] ==> !Emptied(before, after, k)
  {
  }

  lemma {:induction false} KeptLinesAreLines(before: seq<string>, after: seq<string>, k: nat)
    requires k <= |after|
    requires forall j :: 0 <= j < |after| ==> '\n' !in after[j]
    ensures forall j :: 0 <= j < |Unemptied(before, after, k)| ==> '\n' !in Unemptied(before, after, k)[j]
    ensures k < |after| && !Emptied(before, after, k) ==> Unemptied(before, after, k) != []
    decreases |after| - k
  {
    if k < |after| { KeptLinesAreLines(before, after, k + 1); }
  }

  lemma KeepsThenKeeps(a: string, b: string, c: string)
    requires KeepsPlainLines(a, b) && KeepsPlainLines(b, c)
    ensures KeepsPlainLines(a, c)
  {
  }

  lemma StepKeepsPlainLines(rule: Rule, t: string)
    requires Gentle(rule)
    ensures KeepsPlainLines(t, Replace(rule, t))
  {
    ReplaceKeepsPlainLines(rule, t, 0);
    assert t[0..] == t;
  }

  lemma RewriteKeepsPlainLines(t: string)
    ensures KeepsPlainLines(t, RepairPunctuation(StripIds(t)))
  {
    PureRuleIsGentle();
    LabelRuleIsGentle();
    CitationRuleIsGentle();
    PunctuationRuleIsGentle();
    var a := Replace(PURE_RULE, t);
    var b := Replace(LABEL_RULE, a);
    var c := Replace(CITATION_RULE, b);
    StepKeepsPlainLines(PURE_RULE, t);
    StepKeepsPlainLines(LABEL_RULE, a);
    StepKeepsPlainLines(CITATION_RULE, b);
    StepKeepsPlainLines(PUNCTUATION_RULE, c);
    KeepsThenKeeps(t, a, b);
    KeepsThenKeeps(t, b, c);
    KeepsThenKeeps(t, c, Replace(PUNCTUATION_RULE, c));
  }

  // ----- the output -----

  /** The output is the edited elements put through the filter. */
  lemma OutputIsFilteredElements(strip: Strip, lang: Language, source: string)
    requires IsSound(strip) && Parse(lang, source).Some?
    ensures AllProper(Parse(lang, source).value.elems)
    ensures var es := Parse(lang, source).value.elems;
            && Unlex(es) == source && WellPlaced(es)
            && StrippedBy(strip, lang, source) ==
               if SourceEdits(strip, source, es) == [] then source
               else DropLines(Unlex(EditElems(strip, es)), HUSK)
  {
    var es := Parse(lang, source).value.elems;
    UnlexLex(source, lang.goal, [], Touching);
    LexIsWellPlaced(source, lang.goal, [], Touching);
    EditsSpell(strip, source, es);
    var edits := SourceEdits(strip, source, es);
    assert source[0..] == source;
    CommentsLie(source, es, 0);
    EditsAreSound(strip, source, CommentsOf(es, 0));
    FilterClears(source, edits, 0, "");
    var marked, cleared := ReplaceRanges(source, Marked(edits), 0), ReplaceRanges(source, ClearedEdits(edits), 0);
    assert "" + marked == marked && "" + cleared == cleared;
  }

  // ----- length -----

  lemma {:induction false} ClearedNoLonger(ms: seq<string>, ls: seq<string>)
    requires |ms| == |ls|
    requires forall k :: 0 <= k < |ms| ==> ms[k] == ls[k] || ms[k] == HUSK
    ensures |Join(Without(ms, HUSK))| <= |Join(ls)|
  {
    if |ms| > 1 {
      ClearedNoLonger(ms[1..], ls[1..]);
      var kept := Without(ms[1..], HUSK);
      if ms[0] != HUSK {
        if kept == [] { assert [ms[0]] + kept == [ms[0]]; } else { JoinCons(ms[0], kept); }
      }
    } else if |ms| == 1 {
      assert ms[1..] == [];
    }
  }

  lemma EditedIsShorter(strip: Strip, e: Elem)
    requires IsSound(strip) && IsProper(e)
    ensures |Unlex(EditElem(strip, e))| <= |TextOf(e)|
    ensures IsEdited(strip, e) ==> |Unlex(EditElem(strip, e))| < |TextOf(e)|
  {
    var t := TextOf(e);
    var kind := if e.LineComment? then Line else Block;
    assert IsSoundChange(kind, t, strip(kind, t));
    UnlexOne(e);
    if IsEdited(strip, e) && strip(kind, t).Rewritten? {
      var r := strip(kind, t).text;
      ClearedNoLonger(MarkLines(Lines(t), Lines(r)), Lines(r));
      JoinLines(r);
      UnlexOne(LineComment(Cleared(t, r)));
      UnlexOne(BlockComment(Cleared(t, r)));
    }
  }

  lemma UnlexOne(e: Elem)
    ensures Unlex([e]) == TextOf(e)
  {
    assert [e][1..] == [];
  }

  lemma {:induction false} UnlexConcat(a: seq<Elem>, b: seq<Elem>)
    ensures Unlex(a + b) == Unlex(a) + Unlex(b)
  {
    if a == [] {
      assert a + b == b;
    } else {
      assert (a + b)[1..] == a[1..] + b;
      UnlexConcat(a[1..], b);
      assert TextOf(a[0]) + (Unlex(a[1..]) + Unlex(b)) == TextOf(a[0]) + Unlex(a[1..]) + Unlex(b);
    }
  }

  lemma {:induction false} ElementsShrink(strip: Strip, es: seq<Elem>)
    requires IsSound(strip) && AllProper(es)
    ensures |Unlex(EditElems(strip, es))| <= |Unlex(es)|
    ensures (exists k :: 0 <= k < |es| && IsEdited(strip, es[k])) ==> |Unlex(EditElems(strip, es))| < |Unlex(es)|
    ensures (forall k :: 0 <= k < |es| ==> !IsEdited(strip, es[k])) ==> EditElems(strip, es) == es
  {
    if es != [] {
      assert IsProper(es[0]) && AllProper(es[1..]);
      ElementsShrink(strip, es[1..]);
      EditedIsShorter(strip, es[0]);
      var head := if GoesWithNext(strip, es[0], es[1..]) then [] else EditElem(strip, es[0]);
      UnlexConcat(head, EditElems(strip, es[1..]));
      if exists k :: 0 <= k < |es| && IsEdited(strip, es[k]) {
        var k :| 0 <= k < |es| && IsEdited(strip, es[k]);
        if k > 0 { assert IsEdited(strip, es[1..][k - 1]); }
      } else {
        forall k | 0 <= k < |es[1..]| ensures !IsEdited(strip, es[1..][k]) { assert !IsEdited(strip, es[k + 1]); }
        NoRemovalAhead(strip, es[1..]);
        assert !IsEdited(strip, es[0]);
      }
    }
  }

  lemma {:induction false} NoRemovalAhead(strip: Strip, es: seq<Elem>)
    requires AllProper(es) && forall k :: 0 <= k < |es| ==> !IsEdited(strip, es[k])
    ensures !RemovalAhead(strip, es)
  {
    if es != [] {
      assert !IsEdited(strip, es[0]);
      forall k | 0 <= k < |es[1..]| ensures !IsEdited(strip, es[1..][k]) { assert !IsEdited(strip, es[k + 1]); }
      NoRemovalAhead(strip, es[1..]);
    }
  }

  /** There is an edit exactly where some comment changes. */
  lemma {:induction false} EditsWhereEdited(strip: Strip, source: string, es: seq<Elem>, at: nat)
    requires at <= |source| && source[at..] == Unlex(es) && AllProper(es) && IsSound(strip)
    ensures EditsAt(strip, source, es, at) == [] <==> forall k :: 0 <= k < |es| ==> !IsEdited(strip, es[k])
    decreases |es|
  {
    hide EditsAt, IsEdited, IsSound, OwnEdit;
    if es == [] {
      NoElements(strip, source, at);
    } else {
      SoundRemovesLines(strip);
      FirstElement(source, es, at);
      if IsEdited(strip, es[0]) {
        EditsAtComment(strip, source, es, at);
      } else {
        EditsAtNonComment(strip, source, es, at);
        EditsWhereEdited(strip, source, es[1..], at + |TextOf(es[0])|);
        if forall k :: 0 <= k < |es[1..]| ==> !IsEdited(strip, es[1..][k]) {
          forall k | 0 <= k < |es| ensures !IsEdited(strip, es[k]) {
            if k > 0 { assert es[k] == es[1..][k - 1]; }
          }
        } else {
          var k :| 0 <= k < |es[1..]| && IsEdited(strip, es[1..][k]);
          assert IsEdited(strip, es[k + 1]);
        }
      }
    }
  }

  /** The strip returns its input or something strictly shorter, through filter and all. */
  lemma StripShortens(strip: Strip, lang: Language, source: string)
    requires IsSound(strip)
    ensures StrippedBy(strip, lang, source) == source || |StrippedBy(strip, lang, source)| < |source|
  {
    if Parse(lang, source).Some? {
      var es := Parse(lang, source).value.elems;
      OutputIsFilteredElements(strip, lang, source);
      assert source[0..] == source;
      EditsWhereEdited(strip, source, es, 0);
      ElementsShrink(strip, es);
      DropLinesNoLonger(Unlex(EditElems(strip, es)), HUSK);
      CommentsLie(source, es, 0);
      assert |EditsAt(strip, source, es, 0)| == |SourceEdits(strip, source, es)|;
    }
  }

  /** The strip applied again and again. */
  function StripTimes(strip: Strip, lang: Language, source: string, n: nat): string
    requires IsSound(strip)
    decreases n
  {
    if n == 0 then source else StripTimes(strip, lang, StrippedBy(strip, lang, source), n - 1)
  }

  lemma {:induction false} StripReachesFixedPoint(strip: Strip, lang: Language, source: string, n: nat)
    requires IsSound(strip) && n >= |source|
    ensures var last := StripTimes(strip, lang, source, n); StrippedBy(strip, lang, last) == last
    decreases n
  {
    hide StrippedBy, IsSound;
    StripShortens(strip, lang, source);
    if n > 0 {
      if StrippedBy(strip, lang, source) == source {
        StripTimesOfFixed(strip, lang, source, n);
      } else {
        StripReachesFixedPoint(strip, lang, StrippedBy(strip, lang, source), n - 1);
      }
    }
  }

  lemma {:induction false} StripTimesOfFixed(strip: Strip, lang: Language, source: string, n: nat)
    requires IsSound(strip) && StrippedBy(strip, lang, source) == source
    ensures StripTimes(strip, lang, source, n) == source
  {
    if n > 0 { StripTimesOfFixed(strip, lang, source, n - 1); }
  }

  /** `stripFile` repeated as often as the source has characters changes nothing any more. */
  lemma StripFileReachesFixedPoint(lang: Language, source: string)
    ensures IsSound(ChangeOf)
    ensures Stripped(lang, source) == source || |Stripped(lang, source)| < |source|
    ensures var last := StripTimes(ChangeOf, lang, source, |source|); Stripped(lang, last) == last
  {
    ChangesAreSound();
    StripShortens(ChangeOf, lang, source);
    StripReachesFixedPoint(ChangeOf, lang, source, |source|);
  }

  // ----- no sentinel of the source's own -----

  lemma {:induction false} JoinChars(ls: seq<string>, c: char)
    requires c in Join(ls) && c != '\n'
    ensures exists k :: 0 <= k < |ls| && c in ls[k]
  {
    if |ls| > 1 && c !in ls[0] {
      assert Join(ls) == ls[0] + "\n" + Join(ls[1..]);
      JoinChars(ls[1..], c);
      var k :| 0 <= k < |ls[1..]| && c in ls[1..][k];
      assert c in ls[k + 1];
    }
  }

  lemma {:induction false} WithoutFrom(ls: seq<string>, l: string, mark: string)
    requires l in Without(ls, mark)
    ensures l in ls && l != mark
  {
    if ls[0] == mark || l != ls[0] { WithoutFrom(ls[1..], l, mark); }
  }

  lemma ClearedChars(original: string, text: string)
    ensures '\0' in Cleared(original, text) ==> '\0' in text
  {
    var ms := MarkLines(Lines(original), Lines(text));
    if '\0' in Cleared(original, text) {
      JoinChars(Without(ms, HUSK), '\0');
      var k :| 0 <= k < |Without(ms, HUSK)| && '\0' in Without(ms, HUSK)[k];
      WithoutFrom(ms, Without(ms, HUSK)[k], HUSK);
      var j :| 0 <= j < |ms| && ms[j] == Without(ms, HUSK)[k];
      LineChars(text, j, '\0');
    }
  }

  lemma {:induction false} ElementsKeepOutNul(strip: Strip, es: seq<Elem>)
    requires IsSound(strip) && AllProper(es) && '\0' !in Unlex(es)
    ensures '\0' !in Unlex(EditElems(strip, es))
  {
    if es != [] {
      var e := es[0];
      assert IsProper(e) && AllProper(es[1..]);
      assert '\0' !in TextOf(e) && '\0' !in Unlex(es[1..]);
      ElementsKeepOutNul(strip, es[1..]);
      var head := if GoesWithNext(strip, e, es[1..]) then [] else EditElem(strip, e);
      UnlexConcat(head, EditElems(strip, es[1..]));
      UnlexOne(e);
      var kind := if e.LineComment? then Line else Block;
      var change := strip(kind, TextOf(e));
      assert IsSoundChange(kind, TextOf(e), change);
      if IsEdited(strip, e) && change.Rewritten? {
        ClearedChars(TextOf(e), change.text);
        UnlexOne(EditElem(strip, e)[0]);
      }
    }
  }

  /** No line of the edited source is the sentinel by itself. */
  predicate MakesNoSentinel(strip: Strip, source: string, es: seq<Elem>)
    requires AllProper(es)
  {
    Unlex(EditElems(strip, es)) == source || HUSK !in Lines(Unlex(EditElems(strip, es)))
  }

  /** The filter drops emptied lines and nothing else exactly when the source makes no sentinel line of its own. */
  lemma FilterDropsOnlyEmptied(strip: Strip, lang: Language, source: string)
    requires IsSound(strip) && Parse(lang, source).Some?
    ensures AllProper(Parse(lang, source).value.elems)
    ensures var es := Parse(lang, source).value.elems;
            StrippedBy(strip, lang, source) == Unlex(EditElems(strip, es)) <==> MakesNoSentinel(strip, source, es)
  {
    var es := Parse(lang, source).value.elems;
    OutputIsFilteredElements(strip, lang, source);
    SentinelMark();
    DropLinesExactly(Unlex(EditElems(strip, es)), HUSK);
    assert source[0..] == source;
    CommentsLie(source, es, 0);
    EditsWhereEdited(strip, source, es, 0);
    ElementsShrink(strip, es);
    assert |EditsAt(strip, source, es, 0)| == |SourceEdits(strip, source, es)|;
    hide Lines, DropLines, EditElems, EditsAt, SourceEdits, Unlex;
  }

  lemma SentinelMark()
    ensures HUSK != "" && '\n' !in HUSK && '\0' in HUSK
  {
    assert HUSK[0] == '\0';
  }

  /** A source without NUL makes none. */
  lemma NoNulNoSentinel(strip: Strip, es: seq<Elem>)
    requires IsSound(strip) && AllProper(es) && '\0' !in Unlex(es)
    ensures MakesNoSentinel(strip, Unlex(es), es)
  {
    ElementsKeepOutNul(strip, es);
    NoSentinelLine(Unlex(EditElems(strip, es)));
  }
}
