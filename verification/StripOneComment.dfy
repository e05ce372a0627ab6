/** What `stripFile` makes of a source in which one comment changes: that comment alone is replaced. */
module StripOneComment {
  import opened Options
  import opened Regex
  import opened Text
  import opened Lexer
  import opened Parser
  import opened WorkItemIds
  import opened StripText
  import opened StripEdits
  import opened StripElements
  import opened StripRun
  import opened StripSentinels
  import opened StripKeepsCode
  import opened StripOutcomes

  predicate IsKeptElem(e: Elem) {
    (e.LineComment? ==> IsKept(Line, e.text)) && (e.BlockComment? ==> IsKept(Block, e.text))
  }

  function KindOf(e: Elem): CommentType { if e.LineComment? then Line else Block }

  ghost predicate EditedAlone(strip: Strip, es: seq<Elem>, k: nat)
    requires AllProper(es)
  {
    k < |es| && IsEdited(strip, es[k]) && forall j :: 0 <= j < |es| && j != k ==> !IsEdited(strip, es[j])
  }

  lemma EditedAloneTail(strip: Strip, es: seq<Elem>, k: nat)
    requires AllProper(es) && k > 0 && EditedAlone(strip, es, k)
    ensures k < |es| && AllProper(es[1..]) && EditedAlone(strip, es[1..], k - 1) && !IsEdited(strip, es[0])
  {
    hide IsEdited;
    forall j | 0 <= j < |es| - 1 && j != k - 1 ensures !IsEdited(strip, es[1..][j]) {
      assert es[1..][j] == es[j + 1];
    }
  }

  lemma UnlexUpTo(es: seq<Elem>, k: nat)
    requires 0 < k <= |es|
    ensures Unlex(es[..k]) == TextOf(es[0]) + Unlex(es[1..][..k - 1])
  {
    assert es[..k][1..] == es[1..][..k - 1];
  }

  lemma OneEditFirst(strip: Strip, source: string, es: seq<Elem>, at: nat)
    requires at <= |source| && source[at..] == Unlex(es) && es != [] && AllProper(es) && IsSound(strip)
    requires EditedAlone(strip, es, 0)
    ensures EditsAt(strip, source, es, at) == [OwnEdit(strip, source, es[0], at)]
  {
    hide *;
    FirstElement(source, es, at);
    OthersStay(strip, es);
    EditsAtComment(strip, source, es, at);
    EditsWhereEdited(strip, source, es[1..], at + |TextOf(es[0])|);
  }

  lemma OthersStay(strip: Strip, es: seq<Elem>)
    requires es != [] && AllProper(es) && EditedAlone(strip, es, 0)
    ensures AllProper(es[1..]) && IsEdited(strip, es[0])
    ensures forall j :: 0 <= j < |es[1..]| ==> !IsEdited(strip, es[1..][j])
  {
    hide IsEdited, IsProper;
    forall j | 0 <= j < |es[1..]| ensures !IsEdited(strip, es[1..][j]) { assert es[1..][j] == es[j + 1]; }
  }

  lemma SplitAt(source: string, es: seq<Elem>, at: nat)
    requires at <= |source| && source[at..] == Unlex(es) && es != [] && AllProper(es)
    ensures Unlex(es[..0]) == "" && at + |TextOf(es[0])| <= |source|
    ensures source[at..at + |TextOf(es[0])|] == TextOf(es[0])
  {
    assert es[..0] == [];
    FirstElement(source, es, at);
  }

  lemma {:induction false} OneEdit(strip: Strip, source: string, es: seq<Elem>, at: nat, k: nat)
    requires at <= |source| && source[at..] == Unlex(es) && AllProper(es) && IsSound(strip)
    requires k < |es| && EditedAlone(strip, es, k)
    ensures at + |Unlex(es[..k])| + |TextOf(es[k])| <= |source|
    ensures source[at + |Unlex(es[..k])|..at + |Unlex(es[..k])| + |TextOf(es[k])|] == TextOf(es[k])
    ensures EditsAt(strip, source, es, at) == [OwnEdit(strip, source, es[k], at + |Unlex(es[..k])|)]
    decreases k
  {
    hide *;
    if k == 0 {
      SplitAt(source, es, at);
      OneEditFirst(strip, source, es, at);
    } else {
      SoundRemovesLines(strip);
      EditedAloneTail(strip, es, k);
      EditsAtNonComment(strip, source, es, at);
      OneEdit(strip, source, es[1..], at + |TextOf(es[0])|, k - 1);
      UnlexUpTo(es, k);
      var tail := es[1..];
      assert tail[k - 1] == es[k];
    }
  }

  // ----- the output -----

  /** The one comment of a source that is not kept. */
  ghost predicate ChangesAlone(lang: Language, source: string, k: nat)
    requires Parse(lang, source).Some?
  {
    var es := ElemsOf(lang, source);
    k < |es| && !IsKeptElem(es[k]) && forall j :: 0 <= j < |es| && j != k ==> IsKeptElem(es[j])
  }

  lemma KeptIsUnedited(e: Elem)
    requires IsProper(e)
    ensures IsKeptElem(e) <==> !IsEdited(ChangeOf, e)
  {
    ChangesAreSound();
    SoundRemovesLines(ChangeOf);
    hide ChangeOf;
  }

  /** The edit of the one comment, made by itself. */
  lemma OneReplaced(source: string, e: Edit)
    requires Ordered([e], 0, |source|)
    ensures e.start <= e.end <= |source|
    ensures ReplaceRanges(source, [e], 0) == source[..e.start] + e.text + source[e.end..]
  {
    assert [e][1..] == [];
  }

  lemma AloneIsEditedAlone(lang: Language, source: string, k: nat)
    requires Parse(lang, source).Some? && ChangesAlone(lang, source, k)
    ensures k < |ElemsOf(lang, source)| && IsProper(ElemsOf(lang, source)[k])
    ensures EditedAlone(ChangeOf, ElemsOf(lang, source), k) && IsEdited(ChangeOf, ElemsOf(lang, source)[k])
  {
    var es := ElemsOf(lang, source);
    hide ElemsOf, Parse, IsKeptElem, IsEdited, IsProper;
    forall j | 0 <= j < |es| ensures IsKeptElem(es[j]) <==> !IsEdited(ChangeOf, es[j]) { KeptIsUnedited(es[j]); }
  }

  lemma OutputIsElements(lang: Language, source: string)
    requires Parse(lang, source).Some? && '\0' !in source
    ensures var es := ElemsOf(lang, source);
            Unlex(es) == source && Stripped(lang, source) == Unlex(EditElems(ChangeOf, es))
  {
    ChangesAreSound();
    UnlexLex(source, lang.goal, [], Touching);
    hide ChangeOf, EditElems, StrippedBy, IsSound, MakesNoSentinel, Unlex;
    NoNulNoSentinel(ChangeOf, ElemsOf(lang, source));
    FilterDropsOnlyEmptied(ChangeOf, lang, source);
  }

  lemma ClearedAreAt(strip: Strip, source: string, es: seq<Elem>)
    requires Unlex(es) == source && WellPlaced(es)
    ensures source[0..] == source && ClearedEdits(SourceEdits(strip, source, es)) == EditsAt(strip, source, es, 0)
  {
    assert source[0..] == source;
    CommentsLie(source, es, 0);
    hide ClearedEdits, EditsOf, CommentsOf;
  }

  lemma OneSplice(strip: Strip, source: string, es: seq<Elem>, k: nat)
    requires IsSound(strip) && Unlex(es) == source && WellPlaced(es) && AllProper(es)
    requires k < |es| && IsProper(es[k]) && EditedAlone(strip, es, k) && IsEdited(strip, es[k])
    ensures var e := es[k];
            var start := |Unlex(es[..k])|;
            && start + |TextOf(e)| <= |source| && source[start..start + |TextOf(e)|] == TextOf(e)
            && var edit := OwnEdit(strip, source, e, start);
               edit.start <= edit.end <= |source|
               && Unlex(EditElems(strip, es)) == source[..edit.start] + edit.text + source[edit.end..]
  {
    hide *;
    ClearedAreAt(strip, source, es);
    OneEdit(strip, source, es, 0, k);
    EditsSpell(strip, source, es);
    OneReplaced(source, OwnEdit(strip, source, es[k], |Unlex(es[..k])|));
  }

  lemma OneCommentSplices(lang: Language, source: string, k: nat)
    requires Parse(lang, source).Some? && '\0' !in source && ChangesAlone(lang, source, k)
    ensures k < |ElemsOf(lang, source)| && IsProper(ElemsOf(lang, source)[k])
    ensures IsEdited(ChangeOf, ElemsOf(lang, source)[k])
    ensures var e := ElemsOf(lang, source)[k];
            var start := |Unlex(ElemsOf(lang, source)[..k])|;
            && start + |TextOf(e)| <= |source| && source[start..start + |TextOf(e)|] == TextOf(e)
            && var edit := OwnEdit(ChangeOf, source, e, start);
               edit.start <= edit.end <= |source|
               && Stripped(lang, source) == source[..edit.start] + edit.text + source[edit.end..]
  {
    hide *;
    AloneIsEditedAlone(lang, source, k);
    OutputIsElements(lang, source);
    ChangesAreSound();
    ElemsAreProper(lang, source);
    OneSplice(ChangeOf, source, ElemsOf(lang, source), k);
  }

  lemma ElemsAreProper(lang: Language, source: string)
    requires Parse(lang, source).Some?
    ensures WellPlaced(ElemsOf(lang, source)) && AllProper(ElemsOf(lang, source))
  {
    hide ElemsOf, Parse, IsProper, MayPrecede;
  }

  // ----- told by the texts -----

  /** Over blanks back to `w`, and over the line feed before them if there is one. */
  ghost predicate IsWidened(source: string, start: nat, w: nat) {
    exists b: nat :: IsBlankRun(source, b, start) && w == if b > 0 && source[b - 1] == '\n' then b - 1 else b
  }

  predicate IsBlankRun(source: string, b: nat, start: nat) {
    b <= start <= |source| && (forall k :: b <= k < start ==> source[k] == ' ' || source[k] == '\t')
    && (b > 0 ==> source[b - 1] != ' ' && source[b - 1] != '\t')
  }

  lemma WidenedExactly(source: string, start: nat)
    requires start <= |source|
    ensures IsWidened(source, start, WidenedStart(source, start))
  {
    WidenedStartIs(source, start);
    assert IsBlankRun(source, BackOverBlanks(source, start), start);
  }

  /** No line of a comment is left without saying anything that said something at its place before. */
  ghost predicate LeavesNoHusk(before: string, after: string) {
    forall k :: 0 <= k < |Lines(after)| && k < |Lines(before)| && SaysNothing(Lines(after)[k]) ==>
      SaysNothing(Lines(before)[k])
  }

  lemma NothingCleared(before: string, after: string)
    requires '\0' !in after && LeavesNoHusk(before, after)
    ensures Cleared(before, after) == after
  {
    var ls := MarkLines(Lines(before), Lines(after));
    hide Lines, SaysNothing;
    forall k | 0 <= k < |ls| ensures ls[k] == Lines(after)[k] { EmptiedExactly(Lines(before), Lines(after), k); }
    assert ls == Lines(after);
    NoSentinelLine(after);
    JoinLines(after);
  }

  lemma ChangeBringsNoNul(kind: CommentType, t: string, r: string)
    requires '\0' !in t && ChangeOf(kind, t) == Rewritten(r)
    ensures '\0' !in r
  {
    ChangeIsSound(kind, t);
    hide ChangeOf;
  }

  lemma SliceWithout(source: string, start: nat, t: string, c: char)
    requires start + |t| <= |source| && source[start..start + |t|] == t && c !in source
    ensures c !in t
  {
    forall j | 0 <= j < |t| ensures t[j] != c { assert t[j] == source[start + j]; }
  }

  lemma RewriteWrites(kind: CommentType, t: string, r: string)
    requires '\0' !in t && ChangeOf(kind, t) == Rewritten(r) && LeavesNoHusk(t, r)
    ensures Cleared(t, r) == r
  {
    hide *;
    ChangeBringsNoNul(kind, t, r);
    NothingCleared(t, r);
  }

  /** Nothing but spaces is left behind the slashes. */
  predicate SaysNoMore(e: Elem, r: string) { e.LineComment? && forall j :: 2 <= j < |r| ==> IsSpace(r[j]) }

  lemma OwnEditBecomes(source: string, e: Elem, start: nat, r: string)
    requires IsProper(e) && IsEdited(ChangeOf, e) && '\0' !in TextOf(e) && start <= |source|
    requires ChangeOf(KindOf(e), TextOf(e)) == Becomes(KindOf(e), r) && LeavesNoHusk(TextOf(e), r)
    ensures var edit := OwnEdit(ChangeOf, source, e, start);
            && edit.end == start + |TextOf(e)|
            && if SaysNoMore(e, r) then edit.text == "" && IsWidened(source, start, edit.start)
               else edit.text == r && edit.start == start
  {
    WidenedExactly(source, start);
    hide ChangeOf, LeavesNoHusk, WidenedStart, IsWidened, Cleared, IsProper;
    if !SaysNoMore(e, r) { RewriteWrites(KindOf(e), TextOf(e), r); }
  }

  /**
   * The output when one comment is all that changes: the source with that comment replaced, or,
   * where nothing but spaces is left of a line comment, without it and the blanks and the line
   * feed before it.
   */
  lemma OneCommentBecomes(lang: Language, source: string, k: nat, r: string)
    requires Parse(lang, source).Some? && '\0' !in source && ChangesAlone(lang, source, k)
    requires var e := ElemsOf(lang, source)[k];
             ChangeOf(KindOf(e), TextOf(e)) == Becomes(KindOf(e), r) && LeavesNoHusk(TextOf(e), r)
    ensures var e := ElemsOf(lang, source)[k];
            var start := |Unlex(ElemsOf(lang, source)[..k])|;
            var end := start + |TextOf(e)|;
            && end <= |source| && source[start..end] == TextOf(e)
            && if SaysNoMore(e, r)
               then exists w :: 0 <= w <= end && IsWidened(source, start, w)
                                && Stripped(lang, source) == source[..w] + source[end..]
               else Stripped(lang, source) == source[..start] + r + source[end..]
  {
    hide *;
    OneCommentSplices(lang, source, k);
    var e := ElemsOf(lang, source)[k];
    var start := |Unlex(ElemsOf(lang, source)[..k])|;
    SliceWithout(source, start, TextOf(e), '\0');
    OwnEditBecomes(source, e, start, r);
    var edit := OwnEdit(ChangeOf, source, e, start);
    if edit.text == "" { assert source[..edit.start] + edit.text == source[..edit.start]; }
  }
}
