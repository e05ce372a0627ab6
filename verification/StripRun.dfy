/** `stripFile` as it runs, the text it comes to, and what its sentinel lines do. */
module StripRun {
  import opened Options
  import opened Regex
  import opened Text
  import opened Lexer
  import opened Parser
  import opened WorkItemIds
  import opened StripText
  import opened StripEdits
  import opened StripElements

  /** What the loop needs of the change it makes to one comment. */
  ghost predicate IsSound(strip: Strip) {
    forall kind, t :: IsSoundChange(kind, t, strip(kind, t))
  }

  ghost predicate IsSoundChange(kind: CommentType, t: string, change: Change) {
    match change
    case Unchanged => true
    case Removed => kind.Line?
    case Rewritten(r) =>
      && IsComment(kind, t) && IsComment(kind, r) && |r| < |t|
      && (kind.Line? ==> !IsAllSpace(r[2..]))
      && ('\0' in r ==> '\0' in t)
  }

  lemma StepShortens(rule: Rule, t: string)
    requires Gentle(rule)
    ensures |Replace(rule, t)| <= |t|
    ensures Replace(rule, t) != t ==> |Replace(rule, t)| < |t|
    ensures '\0' in Replace(rule, t) ==> '\0' in t
  {
    ReplaceShortens(rule, t, 0);
    assert t[0..] == t;
    if '\0' in Replace(rule, t) { ReplaceChars(rule, t, 0, '\0'); }
  }

  lemma StepKeepsComment(rule: Rule, kind: CommentType, t: string)
    requires Gentle(rule) && IsComment(kind, t)
    ensures IsComment(kind, Replace(rule, t))
  {
    var r := Replace(rule, t);
    ReplaceKeepsOpening(rule, t);
    assert r[0] == r[..2][0] && r[1] == r[..2][1] && t[0] == t[..2][0] && t[1] == t[..2][1];
    if kind.Line? {
      forall k | 0 <= k < |r| ensures !IsLineTerminator(r[k]) {
        ReplaceChars(rule, t, 0, r[k]);
      }
    } else {
      ReplaceKeepsBlock(rule, t, 0);
    }
  }

  /** A strip that changes a comment shortens it and leaves it a comment of its kind. */
  lemma StripKeepsComment(kind: CommentType, t: string)
    requires IsComment(kind, t)
    ensures IsComment(kind, StripIds(t)) && IsComment(kind, RepairPunctuation(StripIds(t)))
    ensures StripIds(t) != t ==> |RepairPunctuation(StripIds(t))| < |t|
    ensures '\0' in RepairPunctuation(StripIds(t)) ==> '\0' in t
  {
    PureRuleIsGentle();
    LabelRuleIsGentle();
    CitationRuleIsGentle();
    PunctuationRuleIsGentle();
    var a := Replace(PURE_RULE, t);
    var b := Replace(LABEL_RULE, a);
    var c := Replace(CITATION_RULE, b);
    StepKeepsComment(PURE_RULE, kind, t);
    StepKeepsComment(LABEL_RULE, kind, a);
    StepKeepsComment(CITATION_RULE, kind, b);
    StepKeepsComment(PUNCTUATION_RULE, kind, c);
    StepShortens(PURE_RULE, t);
    StepShortens(LABEL_RULE, a);
    StepShortens(CITATION_RULE, b);
    StepShortens(PUNCTUATION_RULE, c);
  }

  lemma ChangeIsSound(kind: CommentType, t: string)
    ensures IsSoundChange(kind, t, ChangeOf(kind, t))
  {
    if IsComment(kind, t) { StripKeepsComment(kind, t); }
  }

  /** The three expressions, the guards and the repair together make a sound change. */
  lemma ChangesAreSound()
    ensures IsSound(ChangeOf)
  {
    forall kind, t ensures IsSoundChange(kind, t, ChangeOf(kind, t)) { ChangeIsSound(kind, t); }
  }

  // ----- the edits of a source -----

  /** `edits`, as the loop over `ast.comments` collects them. */
  function SourceEdits(strip: Strip, source: string, es: seq<Elem>): seq<Edit>
    requires Unlex(es) == source && WellPlaced(es)
  {
    assert source[0..] == source;
    CommentsLie(source, es, 0);
    EditsOf(strip, source, CommentsOf(es, 0))
  }

  lemma SoundRemovesLines(strip: Strip)
    requires IsSound(strip)
    ensures forall t :: strip(Block, t) != Removed
  {
    forall t ensures strip(Block, t) != Removed { assert IsSoundChange(Block, t, strip(Block, t)); }
  }

  /**
   * The edits of a parsed source lie inside it, left to right and disjoint even after widening,
   * and with emptied lines dropped they spell the edited elements.
   */
  lemma EditsSpell(strip: Strip, source: string, es: seq<Elem>)
    requires IsSound(strip) && Unlex(es) == source && WellPlaced(es)
    ensures Ordered(SourceEdits(strip, source, es), 0, |source|)
    ensures Ordered(ClearedEdits(SourceEdits(strip, source, es)), 0, |source|)
    ensures ReplaceRanges(source, ClearedEdits(SourceEdits(strip, source, es)), 0) == Unlex(EditElems(strip, es))
  {
    assert source[0..] == source;
    SoundRemovesLines(strip);
    RangesMatchElements(strip, source, es, 0);
    var cleared := EditsAt(strip, source, es, 0);
    assert cleared == ClearedEdits(SourceEdits(strip, source, es));
    if RemovalAhead(strip, es) {
      assert WidenedStart(source, 0) == 0;
      OrderedFits(cleared[1..], cleared[0].end, |source|);
      var rest := ReplaceRanges(source, cleared[1..], cleared[0].end);
      assert source[0..0] + "" + rest == rest;
    }
    SameRanges(cleared, SourceEdits(strip, source, es), 0, |source|);
  }

  lemma {:induction false} SameRanges(a: seq<Edit>, b: seq<Edit>, from: nat, length: nat)
    requires |a| == |b|
    requires forall k :: 0 <= k < |a| ==> a[k].start == b[k].start && a[k].end == b[k].end
    requires Ordered(a, from, length)
    ensures Ordered(b, from, length)
  {
    if a != [] { SameRanges(a[1..], b[1..], a[0].end, length); }
  }

  /** What `stripFile` returns. */
  function StrippedBy(strip: Strip, lang: Language, source: string): string
    requires IsSound(strip)
  {
    match Parse(lang, source)
    case None => source
    case Some(ast) =>
      UnlexLex(source, lang.goal, [], Touching);
      LexIsWellPlaced(source, lang.goal, [], Touching);
      EditsSpell(strip, source, ast.elems);
      var edits := SourceEdits(strip, source, ast.elems);
      if edits == [] then source
      else
        SameRanges(edits, Marked(edits), 0, |source|);
        DropLines(ReplaceRanges(source, Marked(edits), 0), HUSK)
  }

  function Stripped(lang: Language, source: string): string {
    ChangesAreSound();
    StrippedBy(ChangeOf, lang, source)
  }

  /** The source up to `at` is still as it was; behind it every edit has been made. */
  lemma SpliceStep(source: string, edits: seq<Edit>, from: nat, out: string)
    requires edits != [] && Ordered(edits, from, |source|)
    requires Ordered(edits[1..], edits[0].end, |source|) && edits[0].start <= edits[0].end <= |source|
    requires out == source[..edits[0].end] + ReplaceRanges(source, edits[1..], edits[0].end)
    ensures from <= |source| && edits[0].end <= |out|
    ensures out[..edits[0].start] + edits[0].text + out[edits[0].end..]
         == source[..from] + ReplaceRanges(source, edits, from)
  {
    OrderedFits(edits, from, |source|);
    var e := edits[0];
    var rest := ReplaceRanges(source, edits[1..], e.end);
    assert out[..e.start] == source[..e.start];
    assert out[e.end..] == rest;
    assert source[..e.start] == source[..from] + source[from..e.start];
    PrefixAndRest(source, 0, from, e.start, e.text, rest);
    assert source[0..from] == source[..from] && source[0..e.start] == source[..e.start];
  }

  lemma {:induction false} OrderedSuffix(edits: seq<Edit>, from: nat, length: nat, j: nat)
    requires Ordered(edits, from, length) && j <= |edits|
    ensures Ordered(edits[j..], if j == 0 then from else edits[j - 1].end, length)
  {
    if j > 0 {
      OrderedSuffix(edits[1..], edits[0].end, length, j - 1);
      assert edits[1..][j - 1..] == edits[j..];
    }
  }

  /** Applying the edits back to front by their original offsets makes all of them at once. */
  method SpliceBackToFront(source: string, edits: seq<Edit>) returns (out: string)
    requires Ordered(edits, 0, |source|)
    ensures out == ReplaceRanges(source, edits, 0)
  {
    out := source;
    var j := |edits|;
    ghost var at := if j == 0 then 0 else edits[j - 1].end;
    OrderedSuffix(edits, 0, |source|, j);
    OrderedFits(edits[j..], at, |source|);
    assert source == source[..at] + source[at..];
    while j > 0
      invariant 0 <= j <= |edits|
      invariant at == if j == 0 then 0 else edits[j - 1].end
      invariant Ordered(edits[j..], at, |source|) && at <= |source|
      invariant out == source[..at] + ReplaceRanges(source, edits[j..], at)
    {
      j := j - 1;
      ghost var from := if j == 0 then 0 else edits[j - 1].end;
      OrderedSuffix(edits, 0, |source|, j);
      OrderedFits(edits[j..], from, |source|);
      assert edits[j..][0] == edits[j] && edits[j..][1..] == edits[j + 1..];
      SpliceStep(source, edits[j..], from, out);
      out := out[..edits[j].start] + edits[j].text + out[edits[j].end..];
      at := from;
    }
    assert edits[0..] == edits;
    assert source[..0] + ReplaceRanges(source, edits, 0) == ReplaceRanges(source, edits, 0);
  }

  /** The loop over the comments, widening each removed line comment character by character. */
  method CollectEdits(strip: Strip, source: string, comments: seq<Comment>) returns (edits: seq<Edit>)
    requires forall k :: 0 <= k < |comments| ==> Lies(source, comments[k])
    ensures edits == EditsOf(strip, source, comments)
  {
    edits := [];
    assert EditsOf(strip, source, []) == [];
    hide EditsOf, IsComment, LastLineIsBlank;
    for n := 0 to |comments|
      invariant edits == EditsOf(strip, source, comments[..n])
    {
      var c := comments[n];
      var original := source[c.start..c.end];
      EditsOfSnoc(strip, source, comments[..n], c);
      assert comments[..n + 1] == comments[..n] + [c];
      match strip(c.kind, original)
      case Unchanged =>
      case Rewritten(text) =>
        edits := edits + [Edit(c.start, c.end, text, original)];
      case Removed =>
        var start := c.start;
        while start > 0 && IsBlank(source[start - 1])
          invariant 0 <= start <= c.start
          invariant BackOverBlanks(source, start) == BackOverBlanks(source, c.start)
        {
          start := start - 1;
        }
        if start > 0 && source[start - 1] == '\n' && LastLineIsBlank(source[..start]) {
          start := start - 1;
        }
        edits := edits + [Edit(start, c.end, "", original)];
    }
    assert comments[..|comments|] == comments;
  }

  lemma {:induction false} EditsOfSnoc(strip: Strip, source: string, cs: seq<Comment>, c: Comment)
    requires Lies(source, c) && forall k :: 0 <= k < |cs| ==> Lies(source, cs[k])
    ensures EditsOf(strip, source, cs + [c]) == EditsOf(strip, source, cs) + EditsFor(strip, source, c)
  {
    if cs == [] {
      assert cs + [c] == [c] && [c][1..] == [];
    } else {
      assert (cs + [c])[1..] == cs[1..] + [c];
      EditsOfSnoc(strip, source, cs[1..], c);
    }
  }

  method StripFileBy(strip: Strip, lang: Language, source: string) returns (out: string)
    requires IsSound(strip)
    ensures out == StrippedBy(strip, lang, source)
  {
    match Parse(lang, source)
    case None => return source;
    case Some(ast) =>
      UnlexLex(source, lang.goal, [], Touching);
      LexIsWellPlaced(source, lang.goal, [], Touching);
      EditsSpell(strip, source, ast.elems);
      assert source[0..] == source;
      CommentsLie(source, ast.elems, 0);
      var edits := CollectEdits(strip, source, CommentsOf(ast.elems, 0));
      if edits == [] { return source; }
      var marked := Marked(edits);
      SameRanges(edits, marked, 0, |source|);
      out := SpliceBackToFront(source, marked);
      out := Join(Without(Lines(out), HUSK));
  }

  /** `stripFile` */
  method StripFile(lang: Language, source: string) returns (out: string)
    ensures out == Stripped(lang, source)
  {
    ChangesAreSound();
    out := StripFileBy(ChangeOf, lang, source);
  }
}
