/**
 * The match a backtracking engine tries first, put together along the expression; and what the
 * first match of a replacement comes to.
 */
module RegexFirst {
  import opened Options
  import opened Regex

  /** The first way to match from `i` on ends at `e`. */
  predicate First(re: Re, s: string, i: nat, e: nat)
    requires i <= |s|
  {
    Ends(re, s, i) != [] && Ends(re, s, i)[0] == e
  }

  predicate Fails(re: Re, s: string, i: nat)
    requires i <= |s|
  {
    Ends(re, s, i) == []
  }

  lemma FirstIsInText(re: Re, s: string, i: nat, e: nat)
    requires i <= |s| && First(re, s, i, e)
    ensures i <= e <= |s| && e in Ends(re, s, i)
  {
  }

  // ----- one lemma for each construct -----

  lemma FirstChar(cls: Class, s: string, i: nat)
    requires i <= |s|
    ensures if i < |s| && In(cls, s[i]) then First(Ch(cls), s, i, i + 1) else Fails(Ch(cls), s, i)
  {
  }

  lemma FirstWord(w: string, s: string, i: nat)
    requires i <= |s|
    ensures if i + |w| <= |s| && s[i..i + |w|] == w then First(Word(w), s, i, i + |w|) else Fails(Word(w), s, i)
  {
  }

  lemma CatUnfolds(left: Re, right: Re, s: string, i: nat)
    requires i <= |s|
    ensures Ends(Cat(left, right), s, i) == EndsFromEach(right, s, i, Ends(left, s, i))
  {
  }

  lemma FirstCat(left: Re, right: Re, s: string, i: nat, m: nat, e: nat)
    requires i <= |s| && First(left, s, i, m) && m <= |s| && First(right, s, m, e)
    ensures First(Cat(left, right), s, i, e)
  {
    CatUnfolds(left, right, s, i);
    hide Ends;
    var starts := Ends(left, s, i);
    assert EndsFromEach(right, s, i, starts) == Ends(right, s, m) + EndsFromEach(right, s, i, starts[1..]);
  }

  lemma FailsCat(left: Re, right: Re, s: string, i: nat)
    requires i <= |s| && Fails(left, s, i)
    ensures Fails(Cat(left, right), s, i)
  {
    CatUnfolds(left, right, s, i);
    hide Ends;
  }

  lemma FirstOr(a: Re, b: Re, s: string, i: nat, e: nat)
    requires i <= |s| && (First(a, s, i, e) || (Fails(a, s, i) && First(b, s, i, e)))
    ensures First(Or(a, b), s, i, e)
  {
    OrUnfolds(a, b, s, i);
    hide Ends;
  }

  lemma FailsOr(a: Re, b: Re, s: string, i: nat)
    requires i <= |s| && Fails(a, s, i) && Fails(b, s, i)
    ensures Fails(Or(a, b), s, i)
  {
    OrUnfolds(a, b, s, i);
    hide Ends;
  }

  lemma OrUnfolds(a: Re, b: Re, s: string, i: nat)
    requires i <= |s|
    ensures Ends(Or(a, b), s, i) == Ends(a, s, i) + Ends(b, s, i)
  {
  }

  lemma FirstMaybe(body: Re, s: string, i: nat, e: nat)
    requires i <= |s| && (First(body, s, i, e) || (Fails(body, s, i) && e == i))
    ensures First(Maybe(body), s, i, e)
  {
    MaybeUnfolds(body, s, i);
    hide Ends;
  }

  lemma MaybeUnfolds(body: Re, s: string, i: nat)
    requires i <= |s|
    ensures Ends(Maybe(body), s, i) == Ends(body, s, i) + [i]
  {
  }

  lemma ManyUnfolds(body: Re, s: string, i: nat)
    requires i <= |s|
    ensures Ends(Many(body), s, i) == EndsAgain(body, s, i, Ends(body, s, i)) + [i]
  {
  }

  lemma FirstManyStop(body: Re, s: string, i: nat)
    requires i <= |s| && Fails(body, s, i)
    ensures First(Many(body), s, i, i)
  {
    ManyUnfolds(body, s, i);
    hide Ends;
  }

  lemma FirstManyStep(body: Re, s: string, i: nat, m: nat, e: nat)
    requires i < m <= |s| && First(body, s, i, m) && First(Many(body), s, m, e)
    ensures First(Many(body), s, i, e)
  {
    ManyUnfolds(body, s, i);
    hide Ends;
    var starts := Ends(body, s, i);
    assert EndsAgain(body, s, i, starts) == Ends(Many(body), s, m) + EndsAgain(body, s, i, starts[1..]);
  }

  /** A run of a class of characters is taken whole. */
  lemma {:induction false} FirstRun(cls: Class, s: string, i: nat, j: nat)
    requires i <= j <= |s| && (forall k :: i <= k < j ==> In(cls, s[k])) && (j < |s| ==> !In(cls, s[j]))
    ensures First(Many(Ch(cls)), s, i, j)
    decreases j - i
  {
    FirstChar(cls, s, i);
    hide First, Fails, In;
    if i == j {
      FirstManyStop(Ch(cls), s, i);
    } else {
      FirstRun(cls, s, i + 1, j);
      FirstManyStep(Ch(cls), s, i, i + 1, j);
    }
  }

  lemma FirstRunOfSome(cls: Class, s: string, i: nat, j: nat)
    requires i < j <= |s| && (forall k :: i <= k < j ==> In(cls, s[k])) && (j < |s| ==> !In(cls, s[j]))
    ensures First(Cat(Ch(cls), Many(Ch(cls))), s, i, j)
  {
    FirstChar(cls, s, i);
    FirstRun(cls, s, i + 1, j);
    FirstCat(Ch(cls), Many(Ch(cls)), s, i, i + 1, j);
  }

  lemma FirstAhead(body: Re, s: string, i: nat)
    requires i <= |s|
    ensures !Fails(body, s, i) ==> First(Ahead(body), s, i, i)
    ensures Fails(body, s, i) ==> First(NotAhead(body), s, i, i)
  {
  }

  lemma FirstEmpty(s: string, i: nat)
    requires i <= |s|
    ensures First(Empty, s, i, i)
  {
  }

  // ----- every way to match -----

  lemma CatSplits(left: Re, right: Re, s: string, i: nat, e: nat) returns (m: nat)
    requires i <= |s| && e in Ends(Cat(left, right), s, i)
    ensures i <= m <= e <= |s| && m in Ends(left, s, i) && e in Ends(right, s, m)
  {
    CatUnfolds(left, right, s, i);
    m := EndsFromEachSplit(right, s, i, Ends(left, s, i), e);
    Consumed(right, s, m, e);
  }

  lemma RunHolds(cls: Class, s: string, i: nat, e: nat)
    requires i <= |s| && e in Ends(Many(Ch(cls)), s, i)
    ensures i <= e <= |s| && forall k :: i <= k < e ==> In(cls, s[k])
  {
    Consumed(Many(Ch(cls)), s, i, e);
    forall k | i <= k < e ensures In(cls, s[k]) { assert MayConsume(Ch(cls), s[k]); }
  }

  /** After a run of which no place lets the rest match, the whole fails. */
  lemma FailsAfterRun(cls: Class, right: Re, s: string, i: nat, j: nat)
    requires i <= j <= |s| && (j < |s| ==> !In(cls, s[j]))
    requires forall k :: i <= k <= j ==> Fails(right, s, k)
    ensures Fails(Cat(Many(Ch(cls)), right), s, i)
  {
    forall m | i <= m <= j ensures Ends(right, s, m) == [] { assert Fails(right, s, m); }
    var es := Ends(Cat(Many(Ch(cls)), right), s, i);
    if es != [] {
      var m := CatSplits(Many(Ch(cls)), right, s, i, es[0]);
      RunHolds(cls, s, i, m);
    }
  }

  /** The ways that lead through `m` are among all. */
  lemma {:induction false} EachReaches(re: Re, s: string, i: nat, starts: seq<nat>, m: nat, e: nat)
    requires i <= |s| && forall k :: 0 <= k < |starts| ==> i <= starts[k] <= |s|
    requires m in starts && e in Ends(re, s, m)
    ensures e in EndsFromEach(re, s, i, starts)
    decreases |starts|
  {
    if starts[0] != m { EachReaches(re, s, i, starts[1..], m, e); }
  }

  lemma CatReaches(left: Re, right: Re, s: string, i: nat, m: nat, e: nat)
    requires i <= m <= |s| && m in Ends(left, s, i) && e in Ends(right, s, m)
    ensures e in Ends(Cat(left, right), s, i)
  {
    CatUnfolds(left, right, s, i);
    EachReaches(right, s, i, Ends(left, s, i), m, e);
  }

  lemma {:induction false} RunReaches(cls: Class, s: string, i: nat, j: nat)
    requires i <= j <= |s| && forall k :: i <= k < j ==> In(cls, s[k])
    ensures j in Ends(Many(Ch(cls)), s, i)
    decreases j - i
  {
    ManyUnfolds(Ch(cls), s, i);
    if i < j {
      RunReaches(cls, s, i + 1, j);
      FirstChar(cls, s, i);
      hide Ends;
      AgainReaches(Ch(cls), s, i, Ends(Ch(cls), s, i), i + 1, j);
    }
  }

  lemma {:induction false} AgainReaches(body: Re, s: string, i: nat, starts: seq<nat>, m: nat, e: nat)
    requires i <= |s| && forall k :: 0 <= k < |starts| ==> i <= starts[k] <= |s|
    requires m in starts && m > i && e in Ends(Many(body), s, m)
    ensures e in EndsAgain(body, s, i, starts)
    decreases |starts|
  {
    if starts[0] != m { AgainReaches(body, s, i, starts[1..], m, e); }
  }

  // ----- one replacement -----

  /** The match of a rule at `i`, from the first choices of its two parts. */
  lemma FirstMatch(rule: Rule, s: string, i: nat, keepEnd: nat, e: nat)
    requires i <= |s| && !MayBeEmpty(rule.drop)
    requires First(rule.keep, s, i, keepEnd) && keepEnd <= |s| && First(rule.drop, s, keepEnd, e)
    ensures MatchAt(rule, s, i) == Some(Match(keepEnd, e)) && i <= keepEnd < e <= |s|
  {
    hide Ends, MayBeEmpty;
    var keepEnds := Ends(rule.keep, s, i);
    assert FirstOf(rule, s, i, keepEnds) == Some(Match(keepEnd, e));
  }

  lemma ReplaceUnmatched(rule: Rule, s: string, i: nat)
    requires i < |s| && !MayBeEmpty(rule.drop) && MatchAt(rule, s, i) == None
    ensures ReplaceFrom(rule, s, i) == [s[i]] + ReplaceFrom(rule, s, i + 1)
  {
    hide MatchAt, MayBeEmpty;
  }

  lemma ReplaceMatched(rule: Rule, s: string, i: nat, m: Match)
    requires i <= m.keepEnd < m.end <= |s| && !MayBeEmpty(rule.drop) && MatchAt(rule, s, i) == Some(m)
    ensures ReplaceFrom(rule, s, i) == s[i..m.keepEnd] + rule.insert + ReplaceFrom(rule, s, m.end)
  {
    hide MatchAt, MayBeEmpty;
  }

  lemma EndOfText(rule: Rule, s: string)
    requires !MayBeEmpty(rule.drop)
    ensures ReplaceFrom(rule, s, |s|) == ""
  {
    hide MatchAt, MayBeEmpty;
  }

  /** No match begins from `i` up to `j`. */
  predicate Unmatched(rule: Rule, s: string, i: nat, j: nat)
    requires !MayBeEmpty(rule.drop)
  {
    j <= |s| && forall k :: i <= k < j ==> MatchAt(rule, s, k) == None
  }

  lemma {:induction false} UnmatchedStays(rule: Rule, s: string, i: nat, j: nat)
    requires !MayBeEmpty(rule.drop) && i <= j && Unmatched(rule, s, i, j)
    ensures ReplaceFrom(rule, s, i) == s[i..j] + ReplaceFrom(rule, s, j)
    decreases j - i
  {
    hide MatchAt, MayBeEmpty;
    if i < j {
      UnmatchedStays(rule, s, i + 1, j);
      assert MatchAt(rule, s, i) == None;
      assert [s[i]] + s[i + 1..j] == s[i..j];
      assert [s[i]] + (s[i + 1..j] + ReplaceFrom(rule, s, j)) == s[i..j] + ReplaceFrom(rule, s, j);
    } else {
      assert s[i..i] == "";
    }
  }

  /** A text with one match loses what the match drops. */
  lemma ReplacedOnce(rule: Rule, s: string, i: nat, m: Match)
    requires !MayBeEmpty(rule.drop) && i <= m.keepEnd < m.end <= |s|
    requires Unmatched(rule, s, 0, i) && MatchAt(rule, s, i) == Some(m) && Unmatched(rule, s, m.end, |s|)
    ensures Replace(rule, s) == s[..m.keepEnd] + rule.insert + s[m.end..]
  {
    hide MatchAt, MayBeEmpty, Unmatched, ReplaceFrom;
    UnmatchedStays(rule, s, 0, i);
    UnmatchedStays(rule, s, m.end, |s|);
    ReplaceMatched(rule, s, i, m);
    EndOfText(rule, s);
    assert s[m.end..|s|] + "" == s[m.end..];
    assert s[0..i] + (s[i..m.keepEnd] + rule.insert + s[m.end..]) == s[..m.keepEnd] + rule.insert + s[m.end..];
  }

  lemma ReplacedNever(rule: Rule, s: string)
    requires !MayBeEmpty(rule.drop) && Unmatched(rule, s, 0, |s|)
    ensures Replace(rule, s) == s
  {
    hide MatchAt, MayBeEmpty;
    UnmatchedStays(rule, s, 0, |s|);
    assert s[0..|s|] + "" == s;
  }
}
