/** The edits of `stripFile` in scripts/strip-work-item-ids.ts: comments, changes, ranges, husks. */
module StripEdits {
  import opened Regex
  import opened Text
  import opened Lexer
  import opened Parser
  import opened WorkItemIds
  import opened StripText

  // ----- comments -----

  datatype CommentType = Line | Block

  datatype Comment = Comment(kind: CommentType, start: nat, end: nat)

  /** A comment with both its markers. */
  predicate IsComment(kind: CommentType, text: string) {
    match kind
    case Line =>
      && StartsLineComment(text)
      && forall k :: 0 <= k < |text| ==> !IsLineTerminator(text[k])
    case Block => |text| >= 4 && StartsBlockComment(text) && Closes(text)
  }

  /** `ast.comments`: the comments of the elements lying from `at` on, with their ranges. */
  function CommentsOf(es: seq<Elem>, at: nat): seq<Comment> {
    if es == [] then []
    else
      var next := at + |TextOf(es[0])|;
      match es[0]
      case LineComment(_) => [Comment(Line, at, next)] + CommentsOf(es[1..], next)
      case BlockComment(_) => [Comment(Block, at, next)] + CommentsOf(es[1..], next)
      case _ => CommentsOf(es[1..], next)
  }

  /** `comment.value`: the text between the markers. */
  function ValueOf(kind: CommentType, text: string): string
    requires IsComment(kind, text)
  {
    if kind.Line? then text[2..] else text[2..|text| - 2]
  }

  // ----- the change to one comment -----

  datatype Change = Unchanged | Rewritten(text: string) | Removed

  predicate IsAllSpace(s: string) {
    forall k :: 0 <= k < |s| ==> IsSpace(s[k])
  }

  /** `s.replace(/^\/\//, '')` */
  function WithoutSlashes(s: string): string {
    if StartsLineComment(s) then s[2..] else s
  }

  /** How a comment changes; the loop below does not care what the change is made of. */
  type Strip = (CommentType, string) -> Change

  function ChangeOf(kind: CommentType, text: string): Change {
    if !IsComment(kind, text) then Unchanged else ChangeOfComment(kind, text)
  }

  function ChangeOfComment(kind: CommentType, text: string): Change
    requires IsComment(kind, text)
  {
    var value := ValueOf(kind, text);
    if IsExempt(value) || ReportableIds(value) == [] then Unchanged
    else
      var stripped := StripIds(text);
      if stripped == text then Unchanged
      else
        var repaired := RepairPunctuation(stripped);
        if kind.Line? && IsAllSpace(WithoutSlashes(repaired)) then Removed else Rewritten(repaired)
  }

  // ----- edits -----

  datatype Edit = Edit(start: nat, end: nat, text: string, original: string)

  function BackOverBlanks(source: string, start: nat): (b: nat)
    requires start <= |source|
    ensures b <= start
    ensures forall k :: b <= k < start ==> IsBlank(source[k])
    ensures b > 0 ==> !IsBlank(source[b - 1])
  {
    if start > 0 && IsBlank(source[start - 1]) then BackOverBlanks(source, start - 1) else start
  }

  predicate LastLineIsBlank(s: string) {
    IsAllSpace(Lines(s)[|Lines(s)| - 1])
  }

  /** Where the edit that removes a whole line comment starts. */
  function WidenedStart(source: string, start: nat): (w: nat)
    requires start <= |source|
    ensures w <= start
  {
    var b := BackOverBlanks(source, start);
    if b > 0 && source[b - 1] == '\n' && LastLineIsBlank(source[..b]) then b - 1 else b
  }

  predicate Lies(source: string, c: Comment) {
    c.start <= c.end <= |source| && IsComment(c.kind, source[c.start..c.end])
  }

  function EditsFor(strip: Strip, source: string, c: Comment): seq<Edit>
    requires Lies(source, c)
  {
    var original := source[c.start..c.end];
    match strip(c.kind, original)
    case Unchanged => []
    case Rewritten(text) => [Edit(c.start, c.end, text, original)]
    case Removed => [Edit(WidenedStart(source, c.start), c.end, "", original)]
  }

  function EditsOf(strip: Strip, source: string, cs: seq<Comment>): (edits: seq<Edit>)
    requires forall k :: 0 <= k < |cs| ==> Lies(source, cs[k])
  {
    if cs == [] then [] else EditsFor(strip, source, cs[0]) + EditsOf(strip, source, cs[1..])
  }

  // ----- emptied lines -----

  const HUSK := "\0HUSK\0"

  /** The line is `marker` and white space. */
  predicate IsBare(line: string, marker: string) {
    exists j :: 0 <= j <= |line| - |marker| && line[j..j + |marker|] == marker
                && IsAllSpace(line[..j]) && IsAllSpace(line[j + |marker|..])
  }

  predicate IsHusk(line: string) { IsBare(line, "//") || IsBare(line, "*") }

  /** The strip emptied this line: it is a husk now and was none before. */
  predicate Emptied(before: seq<string>, after: seq<string>, k: nat)
    requires k < |after|
  {
    k < |before| && before[k] != after[k] && IsHusk(after[k]) && !IsHusk(before[k])
  }

  function MarkLines(before: seq<string>, after: seq<string>): (marked: seq<string>)
    ensures |marked| == |after|
  {
    seq(|after|, k requires 0 <= k < |after| => if Emptied(before, after, k) then HUSK else after[k])
  }

  function MarkedLines(e: Edit): (ls: seq<string>)
    ensures |ls| >= 1
  {
    MarkLines(Lines(e.original), Lines(e.text))
  }

  function Marked(edits: seq<Edit>): (marked: seq<Edit>)
    ensures |marked| == |edits|
  {
    seq(|edits|, k requires 0 <= k < |edits| => edits[k].(text := Join(MarkedLines(edits[k]))))
  }

  // ----- all edits at once -----

  /** Every edit in the range it says, left to right, none reaching back before `from`. */
  predicate Ordered(edits: seq<Edit>, from: nat, length: nat) {
    if edits == [] then from <= length
    else from <= edits[0].start <= edits[0].end && Ordered(edits[1..], edits[0].end, length)
  }

  /** The source from `from` on with every edited range replaced, all at once. */
  function ReplaceRanges(source: string, edits: seq<Edit>, from: nat): string
    requires Ordered(edits, from, |source|)
  {
    if edits == [] then source[from..]
    else
      OrderedFits(edits, from, |source|);
      source[from..edits[0].start] + edits[0].text + ReplaceRanges(source, edits[1..], edits[0].end)
  }

  lemma {:induction false} OrderedFits(edits: seq<Edit>, from: nat, length: nat)
    requires Ordered(edits, from, length)
    ensures from <= length
    ensures edits != [] ==> from <= edits[0].start <= edits[0].end <= length
    decreases |edits|
  {
    if edits != [] { OrderedFits(edits[1..], edits[0].end, length); }
  }
}
