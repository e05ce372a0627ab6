/** Text that lexes to white space, line terminators and comments only, wherever code may stand. */
module GapText {
  import opened Options
  import opened Regex
  import opened Lexer

  /** The elements of such a text; None where it holds code or is malformed. */
  function Gaps(t: string): (gs: Option<seq<Elem>>)
    decreases |t|
  {
    if t == "" then Some([])
    else match Scan(t, Div)
      case None => None
      case Some(e) =>
        if e.Code? then None
        else match Gaps(t[|TextOf(e)|..])
          case None => None
          case Some(gs) => Some([e] + gs)
  }

  function WidenAll(gap: Gap, gs: seq<Elem>): Gap
    decreases gs
  {
    if gs == [] then gap else WidenAll(Wider(gap, GapOf(gs[0])), gs[1..])
  }

  /** A line comment at the end must not take in what follows. */
  predicate MayPrecedeText(gs: seq<Elem>, after: string) {
    gs != [] && gs[|gs| - 1].LineComment? ==> after == "" || IsLineTerminator(after[0])
  }

  lemma {:induction false} EndOfLineIs(s: string, k: nat, n: nat)
    requires k <= n <= |s|
    requires forall j :: k <= j < n ==> !IsLineTerminator(s[j])
    requires n == |s| || IsLineTerminator(s[n])
    ensures EndOfLine(s, k) == n
    decreases n - k
  {
    if k < n { EndOfLineIs(s, k + 1, n); }
  }

  lemma ScanGap(t: string, goal: Goal, after: string)
    requires t != "" && Scan(t, Div).Some? && !Scan(t, Div).value.Code? && !goal.JsxChildren?
    requires var e := Scan(t, Div).value;
             e.LineComment? && |e.text| == |t| ==> after == "" || IsLineTerminator(after[0])
    ensures Scan(t + after, goal) == Scan(t, Div)
  {
    var e, u := Scan(t, Div).value, t + after;
    assert u[0] == t[0] && forall k :: 0 <= k < |t| ==> u[k] == t[k];
    match e
    case LineComment(_) =>
      var n := EndOfLine(t, 2);
      assert u[n..] == t[n..] + after;
      EndOfLineIs(u, 2, n);
      assert u[..n] == t[..n];
    case BlockComment(_) =>
      var n := Close(InBlockComment, t, 2).value;
      assert u[..n] == t[..n];
      CloseIsLocal(InBlockComment, t, u, 2);
    case _ =>
  }

  lemma GapsCons(t: string, gap: Gap)
    requires t != "" && Gaps(t).Some?
    ensures Scan(t, Div).Some?
    ensures var e := Scan(t, Div).value;
            var rest := t[|TextOf(e)|..];
            && !e.Code? && TextOf(e) + rest == t && Gaps(rest).Some? && Gaps(t).value == [e] + Gaps(rest).value
            && WidenAll(gap, Gaps(t).value) == WidenAll(Wider(gap, GapOf(e)), Gaps(rest).value)
  {
    hide Scan;
    var e := Scan(t, Div).value;
    var gs := Gaps(t[|TextOf(e)|..]).value;
    assert ([e] + gs)[1..] == gs;
  }

  lemma LastGap(t: string, after: string)
    requires t != "" && Gaps(t).Some? && MayPrecedeText(Gaps(t).value, after)
    ensures var e := Scan(t, Div).value;
            var rest := t[|TextOf(e)|..];
            && MayPrecedeText(Gaps(rest).value, after)
            && (e.LineComment? && |e.text| == |t| ==> after == "" || IsLineTerminator(after[0]))
  {
    hide Scan;
  }

  /** Lexing such a text with anything after it: its own elements, then what follows. */
  lemma {:induction false} LexGaps(t: string, after: string, goal: seq<Item> -> Goal, items: seq<Item>, gap: Gap)
    requires Gaps(t).Some? && MayPrecedeText(Gaps(t).value, after) && !goal(items).JsxChildren?
    ensures var more := LexFrom(after, goal, items, WidenAll(gap, Gaps(t).value));
            LexFrom(t + after, goal, items, gap) == if more.None? then None else Some(Gaps(t).value + more.value)
    decreases |t|
  {
    hide LexFrom, Scan, TextOf;
    if t == "" {
      assert t + after == after;
      var more := LexFrom(after, goal, items, gap);
      assert more.Some? ==> [] + more.value == more.value;
    } else {
      var e := Scan(t, Div).value;
      var rest := t[|TextOf(e)|..];
      var gs := Gaps(rest).value;
      GapsCons(t, gap);
      assert |TextOf(e)| == |t| ==> rest == "";
      LastGap(t, after);
      hide Gaps, MayPrecedeText, WidenAll;
      ScanGap(t, goal(items), after);
      LexGaps(rest, after, goal, items, Wider(gap, GapOf(e)));
      assert t + after == TextOf(e) + (rest + after);
      LexCons(e, rest + after, goal, items, gap);
      var more := LexFrom(after, goal, items, WidenAll(Wider(gap, GapOf(e)), gs));
      if more.Some? { assert [e] + (gs + more.value) == [e] + gs + more.value; }
    }
  }

  predicate HoldNoCode(gs: seq<Elem>) { forall k :: 0 <= k < |gs| ==> !gs[k].Code? }

  lemma {:induction false} GapsHoldNoCode(t: string)
    requires Gaps(t).Some?
    ensures HoldNoCode(Gaps(t).value) && (t != "" ==> Gaps(t).value != [])
    decreases |t|
  {
    if t != "" { GapsHoldNoCode(t[|TextOf(Scan(t, Div).value)|..]); }
  }

  lemma {:induction false} ItemsAfterGaps(gs: seq<Elem>, es: seq<Elem>, gap: Gap)
    requires HoldNoCode(gs)
    ensures ItemsOf(gs + es, gap) == ItemsOf(es, WidenAll(gap, gs))
  {
    if gs == [] {
      assert gs + es == es;
    } else {
      assert (gs + es)[1..] == gs[1..] + es;
      ItemsAfterGaps(gs[1..], es, Wider(gap, GapOf(gs[0])));
    }
  }

  lemma BreakIn(a: string, b: string)
    ensures HasBreak(a + b) <==> HasBreak(a) || HasBreak(b)
  {
    var s := a + b;
    if k :| 0 <= k < |a| && IsLineTerminator(a[k]) { assert s[k] == a[k]; }
    if k :| 0 <= k < |b| && IsLineTerminator(b[k]) { assert s[|a| + k] == b[k]; }
    if k :| 0 <= k < |s| && IsLineTerminator(s[k]) { assert if k < |a| then a[k] == s[k] else b[k - |a|] == s[k]; }
  }

  lemma GapBreaks(t: string)
    requires t != "" && Scan(t, Div).Some? && !Scan(t, Div).value.Code?
    ensures var e := Scan(t, Div).value; GapOf(e).Broken? <==> HasBreak(TextOf(e))
  {
    var e := Scan(t, Div).value;
    match e
    case Terminator(c) => assert IsLineTerminator([c][0]);
    case LineComment(text) => assert text == t[..EndOfLine(t, 2)];
    case _ =>
  }

  /** The gap such a text makes is broken exactly when it holds a line terminator, in a comment or not. */
  lemma {:induction false} WidenedByText(t: string, gap: Gap)
    requires Gaps(t).Some? && t != ""
    ensures WidenAll(gap, Gaps(t).value) == Wider(gap, if HasBreak(t) then Broken else Spaced)
    decreases |t|
  {
    var e := Scan(t, Div).value;
    var rest := t[|TextOf(e)|..];
    var gs := Gaps(rest).value;
    assert ([e] + gs)[1..] == gs;
    assert t == TextOf(e) + rest;
    GapBreaks(t);
    BreakIn(TextOf(e), rest);
    if rest != "" { WidenedByText(rest, Wider(gap, GapOf(e))); }
  }

  // ----- text that is not only that -----

  /** What is left of a text once the white space, line terminators and comments at its head are taken off. */
  function Spill(t: string): string
    decreases |t|
  {
    if t == "" then ""
    else match Scan(t, Div)
      case None => t
      case Some(e) => if e.Code? then t else Spill(t[|TextOf(e)|..])
  }

  /** Whatever follows and whatever the goal, the text begins with code or cannot be lexed. */
  predicate StartsCode(t: string) {
    && t != "" && !IsLineTerminator(t[0]) && !IsWhiteSpace(t[0])
    && (t[0] == '/' ==> |t| > 1 && t[1] != '/' && t[1] != '*')
  }

  lemma ScanStartsCode(t: string, after: string, goal: Goal)
    requires StartsCode(t) && !goal.JsxChildren?
    ensures t + after != ""
    ensures var e := Scan(t + after, goal); e.Some? ==> e.value.Code? && e.value.text != "" && e.value.text[0] == t[0]
  {
    var u := t + after;
    assert u != "" && u[0] == t[0] && (|t| > 1 ==> u[1] == t[1]);
  }

  lemma SpillStep(t: string)
    requires Spill(t) != t
    ensures t != "" && Scan(t, Div).Some? && !Scan(t, Div).value.Code?
    ensures var e := Scan(t, Div).value;
            var rest := t[|TextOf(e)|..];
            Spill(rest) == Spill(t) && t == TextOf(e) + rest && (Spill(t) != "" ==> rest != "")
  {
    hide Scan, TextOf;
    var e := Scan(t, Div).value;
    assert Spill(t) == Spill(t[|TextOf(e)|..]);
  }

  lemma SpillIsCode(t: string)
    requires StartsCode(Spill(t))
    ensures Spill(t) != ""
  {
  }

  /** What lexing gives first. */
  lemma LexFirst(s: string, goal: seq<Item> -> Goal, items: seq<Item>, gap: Gap)
    requires s != "" && LexFrom(s, goal, items, gap).Some?
    ensures Scan(s, goal(items)).Some?
    ensures var e := Scan(s, goal(items)).value;
            e.Code? ==> var shown := ItemsOf(LexFrom(s, goal, items, gap).value, gap);
                        shown != [] && shown[0].text == e.text
  {
    hide Scan;
  }

  lemma GapIsPassed(e: Elem, es: seq<Elem>, gap: Gap)
    requires !e.Code?
    ensures ItemsOf([e] + es, gap) == ItemsOf(es, Wider(gap, GapOf(e)))
  {
    assert ([e] + es)[1..] == es;
  }

  /** The first code that lexing such a text gives, if it gives any, begins as what is spilled. */
  lemma {:induction false} LexShowsSpill(t: string, after: string, goal: seq<Item> -> Goal, items: seq<Item>, gap: Gap)
    requires StartsCode(Spill(t)) && !goal(items).JsxChildren?
    ensures var out := LexFrom(t + after, goal, items, gap);
            out.Some? ==> var shown := ItemsOf(out.value, gap);
                          shown != [] && shown[0].text != "" && shown[0].text[0] == Spill(t)[0]
    decreases |t|
  {
    hide LexFrom, Scan, StartsCode, ItemsOf;
    if Spill(t) == t {
      ScanStartsCode(t, after, goal(items));
      if LexFrom(t + after, goal, items, gap).Some? { LexFirst(t + after, goal, items, gap); }
    } else {
      SpillStep(t);
      SpillIsCode(t);
      var e := Scan(t, Div).value;
      var rest := t[|TextOf(e)|..];
      ScanGap(t, goal(items), after);
      assert t + after == TextOf(e) + (rest + after);
      LexCons(e, rest + after, goal, items, gap);
      hide Spill;
      LexShowsSpill(rest, after, goal, items, Wider(gap, GapOf(e)));
      var more := LexFrom(rest + after, goal, items, Wider(gap, GapOf(e)));
      if more.Some? { GapIsPassed(e, more.value, gap); }
    }
  }
}
