/** The strip against the check meant to guard it. */
module StripCertified {
  import opened Options
  import opened Regex
  import opened Text
  import opened Lexer
  import opened Parser
  import opened StripText
  import opened StripEdits
  import opened StripElements
  import opened StripRun
  import opened StripSentinels
  import opened StripKeepsCode
  import opened StripExamples
  import opened StripSources
  import opened CodeSignature

  /** What `stripFile` makes of a source passes the comments-only check against that source. */
  lemma StripPassesCheck(lang: Language, file: string, source: string)
    requires Parse(lang, source).Some? && MakesNoSentinel(ChangeOf, source, ElemsOf(lang, source))
    requires SpillsNoCode(lang, source) && NoLostBreak(lang, source)
    ensures CompareFiles(lang, file, Some(source), Some(Stripped(lang, source))) == None
  {
    NoSpillStandsOut(lang, source);
    StripKeepsCodeExactly(lang, source);
    KeptCodeParses(lang, source);
    hide Stripped, Parse, KeepsCode, Print, SpillsNoCode, NoLostBreak, MakesNoSentinel;
    SameTokensPass(lang, file, source, Stripped(lang, source));
  }

  lemma KeptCodeParses(lang: Language, source: string)
    requires Parse(lang, source).Some? && KeepsCode(lang, source)
    ensures Parse(lang, Stripped(lang, source)).Some?
    ensures Parse(lang, Stripped(lang, source)).value.tokens == Parse(lang, source).value.tokens
  {
    hide Stripped, Lex, ItemsOf;
  }

  lemma EditPostfix(strip: Strip, t: string, r: string)
    requires IsSound(strip) && IsComment(Block, t) && strip(Block, t) == Rewritten(r) && Cleared(t, r) == r
    requires AllProper(PostfixElems(t))
    ensures EditElems(strip, PostfixElems(t)) == PostfixElems(r)
  {
    hide Cleared, IsComment, IsSound;
    assert IsLineTerminator('\n') && AllProper(RestElems());
    assert forall k :: 0 <= k < |RestElems()| ==> !IsEdited(strip, RestElems()[k]);
    ElementsShrink(strip, RestElems());
    hide RestElems;
    var tail := [BlockComment(t)] + RestElems();
    assert tail[1..] == RestElems() && EditElem(strip, BlockComment(t)) == [BlockComment(r)];
    assert AllProper(tail) && EditElems(strip, tail) == [BlockComment(r)] + RestElems();
    assert PostfixElems(t)[1..] == tail;
  }

  lemma PostfixStripped(lang: Language, t: string, r: string)
    requires IsComment(Block, t) && ChangeOf(Block, t) == Rewritten(r) && Cleared(t, r) == r && '\0' !in t
    requires Parse(lang, Postfix(t)).Some? && ElemsOf(lang, Postfix(t)) == PostfixElems(t)
    requires Lex(Postfix(r), lang.goal) == Some(PostfixElems(r))
    ensures Stripped(lang, Postfix(t)) == Postfix(r)
  {
    hide ChangeOf, Cleared, IsComment, Lex, EditElems, Unlex;
    PostfixHasNoNul(t);
    NoSentinelIn(lang, Postfix(t));
    ChangesAreSound();
    FilterDropsOnlyEmptied(ChangeOf, lang, Postfix(t));
    EditPostfix(ChangeOf, t, r);
    LexIsLexFrom(lang, Postfix(r));
    UnlexLex(Postfix(r), lang.goal, [], Touching);
  }

  lemma LexIsLexFrom(lang: Language, s: string)
    ensures Lex(s, lang.goal) == LexFrom(s, lang.goal, [], Touching)
  {
  }

  /**
   * The check cannot see a lost line break. `x`, the split citation, `++`, a line break and `y` read
   * `x; ++y` before the strip and `x++; y` after it: both are accepted, with the same tokens, and
   * the check passes although the code's gaps changed.
   */
  lemma CheckMissesLostBreak(lang: Language, file: string, comment: string)
    requires IsSplitCitation(comment)
    requires ReadsNoJsx(lang, PostfixItems(Broken)) && ReadsNoJsx(lang, PostfixItems(Spaced))
    requires lang.tokens(PostfixItems(Broken)).Some?
    requires lang.tokens(PostfixItems(Spaced)) == lang.tokens(PostfixItems(Broken))
    ensures var source := Postfix(comment);
            && Parse(lang, source).Some? && !KeepsCode(lang, source)
            && Parse(lang, Stripped(lang, source)).Some?
            && CompareFiles(lang, file, Some(source), Some(Stripped(lang, source))) == None
  {
    var r := "/**/";
    LineBreakLost(lang, comment);
    SplitCitationIsFragile(comment, r);
    SplitCitationHasNoNul(comment);
    GapsOfBoth(comment, r);
    hide IsSplitCitation, ChangeOf, Cleared, HasBreak, Close, Postfix, PostfixItems, PostfixElems, KeepsCode;
    PostfixParses(lang, comment);
    PostfixParses(lang, r);
    LexPostfix(lang, r, Spaced);
    PostfixStripped(lang, comment, r);
    SameTokensPass(lang, file, Postfix(comment), Postfix(r));
  }

  lemma GapsOfBoth(t: string, r: string)
    requires HasBreak(t) && !HasBreak(r)
    ensures GapOf(BlockComment(t)) == Broken && GapOf(BlockComment(r)) == Spaced
  {
  }

  lemma SameTokensPass(lang: Language, file: string, before: string, after: string)
    requires Parse(lang, before).Some? && Parse(lang, after).Some?
    requires Parse(lang, before).value.tokens == Parse(lang, after).value.tokens
    ensures CompareFiles(lang, file, Some(before), Some(after)) == None
  {
    hide Parse, Print;
  }
}
