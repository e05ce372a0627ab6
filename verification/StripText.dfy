/** What the strip does to the text of one comment, proved of the expressions themselves. */
module StripText {
  import opened Options
  import opened Regex
  import opened RegexFirst
  import opened Text
  import opened WorkItemIds

  /** The dropped part of a match: no `*`, not from a `/` on, and longer than what replaces it. */
  lemma DroppedPart(rule: Rule, s: string, i: nat)
    requires i <= |s| && Gentle(rule) && MatchAt(rule, s, i).Some?
    ensures var m := MatchAt(rule, s, i).value;
            && i <= m.keepEnd < m.end <= |s|
            && s[m.keepEnd] != '/'
            && (forall k :: m.keepEnd <= k < m.end ==> s[k] != '*')
            && |rule.insert| < m.end - m.keepEnd
  {
    var m := MatchAt(rule, s, i).value;
    Consumed(rule.drop, s, m.keepEnd, m.end);
    ConsumedLength(rule.drop, s, m.keepEnd, m.end);
  }

  /** A replacement leaves the text alone or shortens it. */
  lemma {:induction false} ReplaceShortens(rule: Rule, s: string, i: nat)
    requires i <= |s| && Gentle(rule)
    ensures |ReplaceFrom(rule, s, i)| <= |s| - i
    ensures ReplaceFrom(rule, s, i) != s[i..] ==> |ReplaceFrom(rule, s, i)| < |s| - i
    decreases |s| - i
  {
    hide MatchAt;
    if i < |s| {
      match MatchAt(rule, s, i)
      case None =>
        ReplaceShortens(rule, s, i + 1);
        assert [s[i]] + s[i + 1..] == s[i..];
      case Some(m) =>
        DroppedPart(rule, s, i);
        ReplaceShortens(rule, s, m.end);
    }
  }

  /** It brings in no character but a space. */
  lemma {:induction false} ReplaceChars(rule: Rule, s: string, i: nat, c: char)
    requires i <= |s| && Gentle(rule) && c in ReplaceFrom(rule, s, i)
    ensures c in s || c == ' '
    decreases |s| - i
  {
    hide MatchAt;
    match MatchAt(rule, s, i)
    case None =>
      if c != s[i] { ReplaceChars(rule, s, i + 1, c); }
    case Some(m) =>
      if c !in s[i..m.keepEnd] && c !in rule.insert { ReplaceChars(rule, s, m.end, c); }
  }

  // Starts with either comment marker.
  predicate Opens(t: string) {
    |t| >= 2 && t[0] == '/' && (t[1] == '/' || t[1] == '*')
  }

  lemma ReplaceKeepsOpening(rule: Rule, s: string)
    requires Gentle(rule) && Opens(s)
    ensures Opens(Replace(rule, s)) && Replace(rule, s)[..2] == s[..2]
  {
    assert s[..2] == [s[0], s[1]];
    match MatchAt(rule, s, 0)
    case Some(m) =>
      DroppedPart(rule, s, 0);
      assert m.keepEnd >= 2;
      assert s[0..m.keepEnd][..2] == s[..2];
    case None =>
      match MatchAt(rule, s, 1)
      case Some(m) =>
        DroppedPart(rule, s, 1);
        assert m.keepEnd >= 2;
        assert ReplaceFrom(rule, s, 1)[0] == s[1];
      case None =>
        assert ReplaceFrom(rule, s, 1)[0] == s[1];
  }

  /** Ends with the closing marker of a block comment. */
  predicate Closes(t: string) {
    |t| >= 2 && t[|t| - 2] == '*' && t[|t| - 1] == '/'
  }

  lemma ClosesAfter(p: string, r: string)
    requires Closes(r)
    ensures Closes(p + r)
  {
  }

  lemma ReplaceKeepsLastTwo(rule: Rule, s: string, i: nat)
    requires Gentle(rule) && Closes(s) && i == |s| - 2 && MatchAt(rule, s, i).None?
    ensures ReplaceFrom(rule, s, i) == [s[i]] + ([s[i + 1]] + "")
  {
    hide MatchAt, ReplaceFrom, MayBeEmpty, MayConsume, MayStart, MustConsume, MinLength;
    if MatchAt(rule, s, i + 1).Some? { MatchLeavesClosing(rule, s, i + 1); }
    ReplaceUnmatched(rule, s, i);
    ReplaceUnmatched(rule, s, i + 1);
    EndOfText(rule, s);
  }

  lemma {:induction false} ReplaceKeepsClosing(rule: Rule, s: string, i: nat)
    requires Gentle(rule) && Closes(s) && i <= |s| - 2
    ensures Closes(ReplaceFrom(rule, s, i))
    decreases |s| - i
  {
    hide MatchAt, ReplaceFrom, MayBeEmpty, MayConsume, MayStart, MustConsume, MinLength;
    match MatchAt(rule, s, i)
    case Some(m) =>
      MatchLeavesClosing(rule, s, i);
      ReplaceKeepsClosing(rule, s, m.end);
      ReplaceMatched(rule, s, i, m);
      ClosesAfter(s[i..m.keepEnd] + rule.insert, ReplaceFrom(rule, s, m.end));
    case None =>
      if i < |s| - 2 {
        ReplaceKeepsClosing(rule, s, i + 1);
        ReplaceUnmatched(rule, s, i);
        ClosesAfter([s[i]], ReplaceFrom(rule, s, i + 1));
      } else {
        ReplaceKeepsLastTwo(rule, s, i);
      }
  }

  lemma MatchInBlock(rule: Rule, s: string, i: nat)
    requires Gentle(rule) && Opens(s) && Closes(s) && |s| >= 4 && i <= 1 && MatchAt(rule, s, i).Some?
    ensures Closes(ReplaceFrom(rule, s, i)) && |ReplaceFrom(rule, s, i)| >= 4 - i
  {
    MatchLeavesClosing(rule, s, i);
    var m := MatchAt(rule, s, i).value;
    assert m.keepEnd >= 2;
    hide MatchAt, ReplaceFrom, MayBeEmpty, SparesMarkers, SaysSomething;
    ReplaceKeepsClosing(rule, s, m.end);
    ReplaceMatched(rule, s, i, m);
    var kept, rest := s[i..m.keepEnd] + rule.insert, ReplaceFrom(rule, s, m.end);
    hide Gentle, Opens;
    ClosesAfter(kept, rest);
  }

  lemma MatchLeavesClosing(rule: Rule, s: string, i: nat)
    requires Gentle(rule) && Closes(s) && i <= |s| && MatchAt(rule, s, i).Some?
    ensures MatchAt(rule, s, i).value.end <= |s| - 2
    ensures s[MatchAt(rule, s, i).value.keepEnd] != '/' && s[MatchAt(rule, s, i).value.keepEnd] != '*'
  {
    DroppedPart(rule, s, i);
  }

  /** Both markers of a block comment stay, and stay apart. */
  lemma {:induction false} ReplaceKeepsBlock(rule: Rule, s: string, i: nat)
    requires Gentle(rule) && Opens(s) && Closes(s) && |s| >= 4 && i <= 2
    ensures Closes(ReplaceFrom(rule, s, i)) && |ReplaceFrom(rule, s, i)| >= 4 - i
    decreases 2 - i
  {
    hide MatchAt, ReplaceFrom, MayBeEmpty, MayConsume, MayStart, MustConsume, MinLength;
    if i == 2 {
      ReplaceKeepsClosing(rule, s, 2);
    } else if MatchAt(rule, s, i).Some? {
      MatchInBlock(rule, s, i);
    } else {
      ReplaceKeepsBlock(rule, s, i + 1);
      ReplaceUnmatched(rule, s, i);
      ClosesAfter([s[i]], ReplaceFrom(rule, s, i + 1));
    }
  }

  // ----- lines that say nothing -----

  predicate IsPlain(line: string) {
    forall k :: 0 <= k < |line| ==> IsHuskChar(line[k])
  }

  /** Both texts have the same lines wherever the first one's line says nothing. */
  predicate SamePlainLines(ls: seq<string>, rs: seq<string>) {
    |ls| == |rs| && forall k :: 0 <= k < |ls| && IsPlain(ls[k]) ==> rs[k] == ls[k]
  }

  lemma {:induction false} MoreLines(p: string, r: string)
    ensures |Lines(p + r)| >= |Lines(r)|
    ensures |Lines(p + r)| == |Lines(r)| + |Lines(p)| - 1
  {
    if p == "" {
      assert p + r == r;
    } else {
      assert (p + r)[1..] == p[1..] + r;
      MoreLines(p[1..], r);
    }
  }

  /** No line is added; and if none is lost either, plain lines stay what they are. */
  predicate KeepsPlainLines(s: string, r: string) {
    && |Lines(r)| <= |Lines(s)|
    && (|Lines(r)| == |Lines(s)| ==> SamePlainLines(Lines(s), Lines(r)))
  }

  lemma KeepsNothing()
    ensures KeepsPlainLines("", "")
  {
  }

  lemma KeepsAfterOne(c: char, s: string, r: string)
    requires KeepsPlainLines(s, r)
    ensures KeepsPlainLines([c] + s, [c] + r)
  {
    hide IsHuskChar;
    assert ([c] + s)[1..] == s && ([c] + r)[1..] == r;
    var ls, rs := Lines(s), Lines(r);
    if c != '\n' && IsPlain([c] + ls[0]) {
      assert forall k :: 0 <= k < |ls[0]| ==> ls[0][k] == ([c] + ls[0])[k + 1];
      assert IsPlain(ls[0]);
    }
  }

  /** The same text put before both sides. */
  lemma {:induction false} KeepsAfter(p: string, s: string, r: string)
    requires KeepsPlainLines(s, r)
    ensures KeepsPlainLines(p + s, p + r)
  {
    if p == "" {
      assert p + s == s && p + r == r;
    } else {
      KeepsAfter(p[1..], s, r);
      KeepsAfterOne(p[0], p[1..] + s, p[1..] + r);
      assert [p[0]] + (p[1..] + s) == p + s;
      assert [p[0]] + (p[1..] + r) == p + r;
    }
  }

  lemma {:induction false} FirstLineOf(p: string, s: string)
    requires '\n' !in p
    ensures Lines(p + s) == [p + Lines(s)[0]] + Lines(s)[1..]
  {
    if p == "" {
      assert p + s == s;
      assert p + Lines(s)[0] == Lines(s)[0];
    } else {
      assert (p + s)[1..] == p[1..] + s;
      FirstLineOf(p[1..], s);
      assert [p[0]] + (p[1..] + Lines(s)[0]) == p + Lines(s)[0];
    }
  }

  lemma {:induction false} LinesWithBreak(s: string)
    requires '\n' in s
    ensures |Lines(s)| >= 2
  {
    if s[0] != '\n' { LinesWithBreak(s[1..]); }
  }

  /** Text that says something gives way to at most a space. */
  lemma KeepsWithout(dropped: string, insert: string, s: string, r: string, k: nat)
    requires k < |dropped| && !IsHuskChar(dropped[k]) && '\n' !in insert
    requires KeepsPlainLines(s, r)
    ensures KeepsPlainLines(dropped + s, insert + r)
  {
    FirstLineOf(insert, r);
    MoreLines(dropped, s);
    if '\n' in dropped {
      LinesWithBreak(dropped);
    } else {
      FirstLineOf(dropped, s);
      var first := dropped + Lines(s)[0];
      assert first[k] == dropped[k];
      assert !IsPlain(first);
    }
  }

  lemma DroppedPartTells(rule: Rule, s: string, i: nat) returns (k: nat)
    requires i <= |s| && Gentle(rule) && MatchAt(rule, s, i).Some?
    ensures MatchAt(rule, s, i).value.keepEnd <= k < MatchAt(rule, s, i).value.end
    ensures !IsHuskChar(s[k])
  {
    var m := MatchAt(rule, s, i).value;
    k := ConsumedKind(rule.drop, s, m.keepEnd, m.end, SaysMore);
  }

  lemma KeepsMatch(insert: string, s: string, i: nat, keepEnd: nat, end: nat, k: nat, rest: string)
    requires i <= keepEnd <= k < end <= |s| && !IsHuskChar(s[k]) && '\n' !in insert
    requires KeepsPlainLines(s[end..], rest)
    ensures KeepsPlainLines(s[i..], s[i..keepEnd] + insert + rest)
  {
    var kept, dropped, after := s[i..keepEnd], s[keepEnd..end], s[end..];
    assert s[i..] == kept + (dropped + after);
    assert kept + insert + rest == kept + (insert + rest);
    assert dropped[k - keepEnd] == s[k];
    KeepsWithout(dropped, insert, after, rest, k - keepEnd);
    KeepsAfter(kept, dropped + after, insert + rest);
  }

  /**
   * A replacement that keeps the number of lines changes no line that says nothing: whatever it
   * takes out of a line holds some other character.
   */
  lemma {:induction false} ReplaceKeepsPlainLines(rule: Rule, s: string, i: nat)
    requires i <= |s| && Gentle(rule)
    ensures KeepsPlainLines(s[i..], ReplaceFrom(rule, s, i))
    decreases |s| - i
  {
    hide MatchAt, ReplaceFrom, MayBeEmpty, MayConsume, MayStart, MustConsume, MinLength, KeepsPlainLines, IsHuskChar;
    if i == |s| {
      EndOfText(rule, s);
      KeepsNothing();
      assert s[i..] == "";
    } else {
      match MatchAt(rule, s, i)
      case None =>
        ReplaceKeepsPlainLines(rule, s, i + 1);
        ReplaceUnmatched(rule, s, i);
        KeepsAfterOne(s[i], s[i + 1..], ReplaceFrom(rule, s, i + 1));
        assert [s[i]] + s[i + 1..] == s[i..];
      case Some(m) =>
        ReplaceKeepsPlainLines(rule, s, m.end);
        ReplaceMatched(rule, s, i, m);
        var k := DroppedPartTells(rule, s, i);
        KeepsMatch(rule.insert, s, i, m.keepEnd, m.end, k, ReplaceFrom(rule, s, m.end));
    }
  }
}
