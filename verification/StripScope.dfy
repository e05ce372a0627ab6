/** Which comments are in scope at all: the tag that exempts one, the IDs that count, and those that are kept. */
module StripScope {
  import opened Options
  import opened Regex
  import opened RegexFirst
  import opened WorkItemIds
  import opened IdText
  import opened StripForms

  predicate IsFoundAt(re: Re, s: string, k: nat) { k <= |s| && Ends(re, s, k) != [] }

  lemma {:induction false} TestExactly(re: Re, s: string, i: nat)
    requires i <= |s|
    ensures TestFrom(re, s, i) <==> exists k: nat :: i <= k && IsFoundAt(re, s, k)
    decreases |s| - i
  {
    if i < |s| { TestExactly(re, s, i + 1); }
    hide Ends;
    if Ends(re, s, i) != [] {
      assert IsFoundAt(re, s, i);
    } else if TestFrom(re, s, i) {
      var k: nat :| i + 1 <= k && IsFoundAt(re, s, k);
    }
  }

  // ----- the tag -----

  const TAG := "@openapi"

  predicate IsLineStart(v: string, i: nat) { i == 0 || (i <= |v| && IsLineTerminator(v[i - 1])) }

  predicate IsLineEnd(v: string, e: nat) { e == |v| || (e < |v| && IsLineTerminator(v[e])) }

  /** White space, at most one `*`, white space, the tag and white space. */
  predicate TagParts(v: string, i: nat, a: nat, b: nat, c: nat, e: nat) {
    && SpacesIn(v, i, a) && (b == a || (b == a + 1 && a < |v| && v[a] == '*'))
    && SpacesIn(v, b, c) && At(v, c, TAG) && SpacesIn(v, c + |TAG|, e)
  }

  ghost predicate TagBetween(v: string, i: nat, e: nat) {
    exists a: nat, b: nat, c: nat :: TagParts(v, i, a, b, c, e)
  }

  /** A line that holds the tag and nothing else but white space and a `*`. */
  ghost predicate HasTagLine(v: string) {
    exists i: nat, e: nat :: IsLineStart(v, i) && IsLineEnd(v, e) && TagBetween(v, i, e)
  }

  lemma SpacesHold(v: string, i: nat, e: nat)
    requires i <= |v| && e in Ends(SPACES, v, i)
    ensures SpacesIn(v, i, e)
  {
    RunHolds(Space, v, i, e);
  }

  lemma SpacesReach(v: string, i: nat, e: nat)
    requires SpacesIn(v, i, e)
    ensures e in Ends(SPACES, v, i)
  {
    forall k | i <= k < e ensures In(Space, v[k]) { }
    RunReaches(Space, v, i, e);
  }

  lemma StarFound(v: string, a: nat, b: nat)
    requires a <= |v| && b in Ends(Maybe(Chr('*')), v, a)
    ensures b == a || (b == a + 1 && a < |v| && v[a] == '*')
  {
    MaybeUnfolds(Chr('*'), v, a);
    if b != a { CharFound(One('*'), v, a, b); }
  }

  lemma StarReaches(v: string, a: nat, b: nat)
    requires a <= |v| && (b == a || (b == a + 1 && a < |v| && v[a] == '*'))
    ensures b in Ends(Maybe(Chr('*')), v, a) && b <= |v|
  {
    MaybeUnfolds(Chr('*'), v, a);
    FirstChar(One('*'), v, a);
  }

  lemma TagReaches(v: string, c: nat)
    requires At(v, c, TAG)
    ensures c + |TAG| <= |v| && c + |TAG| in Ends(Word(TAG), v, c)
  {
    FirstWord(TAG, v, c);
  }

  lemma LineEdges(v: string, i: nat, e: nat)
    requires i <= |v|
    ensures e in Ends(LineStart, v, i) <==> e == i && IsLineStart(v, i)
    ensures e in Ends(LineEnd, v, i) <==> e == i && IsLineEnd(v, i)
  {
  }

  const AFTER_TAG: Re := Cat(SPACES, LineEnd)

  const FROM_TAG: Re := Cat(Word(TAG), AFTER_TAG)

  const FROM_STAR: Re := Cat(Maybe(Chr('*')), Cat(SPACES, FROM_TAG))

  lemma TagParsed()
    ensures OPENAPI_BLOCK == Cat(LineStart, Cat(SPACES, FROM_STAR))
    ensures FROM_STAR == Cat(Maybe(Chr('*')), Cat(SPACES, FROM_TAG))
    ensures FROM_TAG == Cat(Word(TAG), AFTER_TAG) && AFTER_TAG == Cat(SPACES, LineEnd)
  {
  }

  lemma TagFound(v: string, i: nat, z: nat)
    requires i <= |v| && z in Ends(OPENAPI_BLOCK, v, i)
    ensures z <= |v| && IsLineStart(v, i) && IsLineEnd(v, z) && TagBetween(v, i, z)
  {
    var a, b, c := TagPartsFound(v, i, z);
    assert TagParts(v, i, a, b, c, z);
  }

  lemma TagPartsFound(v: string, i: nat, z: nat) returns (a: nat, b: nat, c: nat)
    requires i <= |v| && z in Ends(OPENAPI_BLOCK, v, i)
    ensures z <= |v| && IsLineStart(v, i) && IsLineEnd(v, z) && TagParts(v, i, a, b, c, z)
  {
    TagParsed();
    hide Ends, OPENAPI_BLOCK, FROM_STAR, FROM_TAG, AFTER_TAG, SPACES, IsLineStart, IsLineEnd, SpacesIn, At;
    var n := CatSplits(LineStart, Cat(SPACES, FROM_STAR), v, i, z);
    LineEdges(v, i, n);
    a := CatSplits(SPACES, FROM_STAR, v, n, z);
    SpacesHold(v, n, a);
    b := CatSplits(Maybe(Chr('*')), Cat(SPACES, FROM_TAG), v, a, z);
    StarFound(v, a, b);
    c := CatSplits(SPACES, FROM_TAG, v, b, z);
    SpacesHold(v, b, c);
    var d := CatSplits(Word(TAG), AFTER_TAG, v, c, z);
    TagWordFound(v, c, d);
    var e := CatSplits(SPACES, LineEnd, v, d, z);
    SpacesHold(v, d, e);
    LineEdges(v, e, z);
  }

  lemma TagWordFound(v: string, c: nat, d: nat)
    requires c <= |v| && d in Ends(Word(TAG), v, c)
    ensures d == c + |TAG| && At(v, c, TAG)
  {
    WordFound(TAG, v, c, d);
  }

  lemma TagMatches(v: string, i: nat, a: nat, b: nat, c: nat, e: nat)
    requires IsLineStart(v, i) && IsLineEnd(v, e) && TagParts(v, i, a, b, c, e)
    ensures i <= |v| && e in Ends(OPENAPI_BLOCK, v, i)
  {
    TagParsed();
    StarReaches(v, a, b);
    TagReaches(v, c);
    SpacesReach(v, i, a);
    SpacesReach(v, b, c);
    SpacesReach(v, c + |TAG|, e);
    hide Ends, OPENAPI_BLOCK, FROM_STAR, FROM_TAG, AFTER_TAG, SPACES, IsLineStart, IsLineEnd, At;
    var d := c + |TAG|;
    LineEdges(v, e, e);
    LineEdges(v, i, i);
    CatReaches(SPACES, LineEnd, v, d, e, e);
    CatReaches(Word(TAG), AFTER_TAG, v, c, d, e);
    CatReaches(SPACES, FROM_TAG, v, b, c, e);
    CatReaches(Maybe(Chr('*')), Cat(SPACES, FROM_TAG), v, a, b, e);
    CatReaches(SPACES, FROM_STAR, v, i, a, e);
    CatReaches(LineStart, Cat(SPACES, FROM_STAR), v, i, i, e);
  }

  /** A comment is exempt exactly when one of its lines holds the tag and nothing else. */
  lemma ExemptExactly(v: string)
    ensures IsExempt(v) <==> HasTagLine(v)
  {
    TestExactly(OPENAPI_BLOCK, v, 0);
    hide Ends, OPENAPI_BLOCK, TagParts, IsLineStart, IsLineEnd;
    if IsExempt(v) {
      var k: nat :| IsFoundAt(OPENAPI_BLOCK, v, k);
      TagFound(v, k, Ends(OPENAPI_BLOCK, v, k)[0]);
    }
    if HasTagLine(v) {
      var i: nat, e: nat :| IsLineStart(v, i) && IsLineEnd(v, e) && TagBetween(v, i, e);
      var a: nat, b: nat, c: nat :| TagParts(v, i, a, b, c, e);
      TagMatches(v, i, a, b, c, e);
      assert IsFoundAt(OPENAPI_BLOCK, v, i);
    }
  }

  // ----- the IDs -----

  /** No word goes on at `e`. */
  predicate WordStops(v: string, e: nat) { e < |v| ==> !IsWordChar(v[e]) }

  predicate IsMarked(v: string, e: nat) { At(v, e, "-ok") && WordStops(v, e + 3) }

  /** An ID at `k`, a word of its own: with `-ok` behind it, as a suppression marker has, or without. */
  predicate CountsAt(v: string, k: nat, name: string, digits: string, ok: string) {
    && IsName(name) && digits != "" && AllIn(Digit, digits) && (ok == "" || ok == "-ok")
    && (k == 0 || (k <= |v| && !IsWordChar(v[k - 1])))
    && At(v, k, (name + "-") + (digits + ok))
    && var e := k + |name| + 1 + |digits| + |ok|;
       WordStops(v, e) && (ok == "" ==> !IsMarked(v, e))
  }

  const WORD_END: Re := Cat(Maybe(Word("-ok")), WordEdge)

  lemma ItemParts()
    ensures WORK_ITEM_ID == Cat(WordEdge, Cat(PREFIX, Cat(NUMBER, WORD_END)))
    ensures WORD_END == Cat(Maybe(Word("-ok")), WordEdge)
    ensures !MayBeEmpty(WORK_ITEM_ID)
  {
    PrefixFacts();
  }

  lemma EdgeFound(v: string, k: nat, m: nat)
    requires k <= |v| && m in Ends(WordEdge, v, k)
    ensures m == k && AtWordEdge(v, k)
  {
  }

  /** What the expression finds behind the number. */
  lemma WordEndFound(v: string, b: nat, e: nat) returns (ok: string)
    requires 0 < b <= |v| && IsDigit(v[b - 1]) && e in Ends(WORD_END, v, b)
    ensures (ok == "" || ok == "-ok") && At(v, b, ok) && WordStops(v, b + |ok|) && (ok == "" ==> !IsMarked(v, b))
  {
    if IsMarked(v, b) { return "-ok"; }
    hide Ends;
    var d := CatSplits(Maybe(Word("-ok")), WordEdge, v, b, e);
    EdgeFound(v, d, e);
    MaybeUnfolds(Word("-ok"), v, b);
    if d in Ends(Word("-ok"), v, b) {
      WordFound("-ok", v, b, d);
      AtChar(v, b, "-ok", 2);
    }
    ok := "";
    assert v[b..b] == "";
  }

  lemma NumberFound(v: string, a: nat, b: nat)
    requires a <= |v| && b in Ends(NUMBER, v, a)
    ensures a < b <= |v| && AllIn(Digit, v[a..b])
  {
    hide Ends;
    var d := CatSplits(Ch(Digit), Many(Ch(Digit)), v, a, b);
    CharFound(Digit, v, a, d);
    RunHolds(Digit, v, d, b);
  }

  /** Where the expression for IDs matches, one counts. */
  lemma ItemFound(v: string, k: nat, e: nat) returns (name: string, digits: string, ok: string)
    requires k <= |v| && e in Ends(WORK_ITEM_ID, v, k)
    ensures CountsAt(v, k, name, digits, ok)
  {
    ItemParts();
    PrefixIs();
    hide Ends, WORK_ITEM_ID, NUMBER, WORD_END;
    var m := CatSplits(WordEdge, Cat(PREFIX, Cat(NUMBER, WORD_END)), v, k, e);
    EdgeFound(v, k, m);
    var a := CatSplits(PREFIX, Cat(NUMBER, WORD_END), v, k, e);
    var h := CatSplits(NAME_WORDS, Chr('-'), v, k, a);
    name := NameFound(v, k, h);
    CharFound(One('-'), v, h, a);
    var b := CatSplits(NUMBER, WORD_END, v, a, e);
    NumberFound(v, a, b);
    digits := v[a..b];
    assert In(Digit, digits[|digits| - 1]);
    ok := WordEndFound(v, b, e);
    AtConcat(v, k, name, "-");
    AtConcat(v, a, digits, ok);
    AtConcat(v, k, name + "-", digits + ok);
  }

  lemma FirstEdge(v: string, k: nat)
    requires k <= |v| && AtWordEdge(v, k)
    ensures First(WordEdge, v, k, k)
  {
  }

  lemma CountsParts(v: string, k: nat, name: string, digits: string, ok: string)
    requires CountsAt(v, k, name, digits, ok)
    ensures var a := k + |name| + 1;
            var b := a + |digits|;
            && At(v, k, name + "-") && At(v, a, digits) && At(v, b, ok)
            && b + |ok| == k + |(name + "-") + (digits + ok)| <= |v|
            && (b < |v| ==> !IsDigit(v[b])) && AtWordEdge(v, k) && IsDigit(v[b - 1])
            && WordStops(v, b + |ok|) && (ok == "" ==> !IsMarked(v, b))
  {
    var a := k + |name| + 1;
    var b := a + |digits|;
    AtThree(v, k, name + "-", digits, ok);
    AtChar(v, k, name + "-", 0);
    AtChar(v, a, digits, |digits| - 1);
    assert In(Digit, digits[|digits| - 1]);
    if ok != "" { AtChar(v, b, ok, 0); }
  }

  lemma FirstUnmarked(v: string, b: nat)
    requires 0 < b <= |v| && IsDigit(v[b - 1]) && WordStops(v, b) && !IsMarked(v, b)
    ensures First(WORD_END, v, b, b)
  {
    var both := Ends(Word("-ok"), v, b) + [b];
    CatUnfolds(Maybe(Word("-ok")), WordEdge, v, b);
    MaybeUnfolds(Word("-ok"), v, b);
    FirstEdge(v, b);
    if At(v, b, "-ok") {
      AtChar(v, b, "-ok", 2);
      assert !AtWordEdge(v, b + 3);
      assert both == [b + 3, b] && both[1..] == [b];
    } else {
      assert both == [b];
    }
  }

  lemma FirstWordEnd(v: string, b: nat, ok: string)
    requires 0 < b <= |v| && IsDigit(v[b - 1]) && (ok == "" || ok == "-ok") && At(v, b, ok)
    requires WordStops(v, b + |ok|) && (ok == "" ==> !IsMarked(v, b))
    ensures First(WORD_END, v, b, b + |ok|)
  {
    if ok == "" {
      FirstUnmarked(v, b);
    } else {
      AtChar(v, b, "-ok", 2);
      FirstWord("-ok", v, b);
      FirstEdge(v, b + 3);
      hide First;
      FirstMaybe(Word("-ok"), v, b, b + 3);
      FirstCat(Maybe(Word("-ok")), WordEdge, v, b, b + 3, b + 3);
    }
  }

  lemma FirstItem(v: string, k: nat, name: string, digits: string, ok: string)
    requires CountsAt(v, k, name, digits, ok)
    ensures k < |v| && First(WORK_ITEM_ID, v, k, k + |name| + 1 + |digits| + |ok|)
  {
    var a := k + |name| + 1;
    var b := a + |digits|;
    var e := b + |ok|;
    CountsParts(v, k, name, digits, ok);
    assert IsName(name) && digits != "" && AllIn(Digit, digits) && (ok == "" || ok == "-ok");
    ItemParts();
    hide *;
    FirstEdge(v, k);
    FirstPrefix(v, k, name);
    FirstNumber(v, a, digits);
    FirstWordEnd(v, b, ok);
    FirstCat(NUMBER, WORD_END, v, a, b, e);
    FirstCat(PREFIX, Cat(NUMBER, WORD_END), v, k, a, e);
    FirstCat(WordEdge, Cat(PREFIX, Cat(NUMBER, WORD_END)), v, k, k, e);
  }

  // ----- which of them are kept -----

  const SUPPRESSION_END: Re := Cat(Word("-ok"), InputEnd)

  lemma SuppressionParts()
    ensures SUPPRESSION_MARKER == Cat(InputStart, Cat(PREFIX, Cat(NUMBER, SUPPRESSION_END)))
    ensures SUPPRESSION_END == Cat(Word("-ok"), InputEnd)
  {
  }

  lemma FirstBorders(t: string)
    ensures First(InputStart, t, 0, 0) && First(InputEnd, t, |t|, |t|)
  {
  }

  lemma MarkerIsKept(name: string, digits: string)
    requires IsName(name) && digits != "" && AllIn(Digit, digits)
    ensures TestFrom(SUPPRESSION_MARKER, (name + "-") + (digits + "-ok"), 0)
  {
    var t := (name + "-") + (digits + "-ok");
    var a := |name| + 1;
    var b := a + |digits|;
    assert t[0..|t|] == t;
    assert At(t, 0, t);
    AtThree(t, 0, name + "-", digits, "-ok");
    AtChar(t, b, "-ok", 0);
    FirstWord("-ok", t, b);
    SuppressionParts();
    hide First;
    FirstPrefix(t, 0, name);
    FirstNumber(t, a, digits);
    FirstBorders(t);
    FirstCat(Word("-ok"), InputEnd, t, b, b + 3, |t|);
    FirstCat(NUMBER, SUPPRESSION_END, t, a, b, |t|);
    FirstCat(PREFIX, Cat(NUMBER, SUPPRESSION_END), t, 0, a, |t|);
    FirstCat(InputStart, Cat(PREFIX, Cat(NUMBER, SUPPRESSION_END)), t, 0, 0, |t|);
    FirstIsInText(SUPPRESSION_MARKER, t, 0, |t|);
  }

  lemma SuppressionFound(t: string, k: nat, e: nat) returns (n: nat)
    requires k <= |t| && e in Ends(SUPPRESSION_MARKER, t, k)
    ensures At(t, n, "-ok")
  {
    SuppressionParts();
    hide Ends, SUPPRESSION_MARKER, SUPPRESSION_END;
    var i := CatSplits(InputStart, Cat(PREFIX, Cat(NUMBER, SUPPRESSION_END)), t, k, e);
    var a := CatSplits(PREFIX, Cat(NUMBER, SUPPRESSION_END), t, i, e);
    n := CatSplits(NUMBER, SUPPRESSION_END, t, a, e);
    var d := CatSplits(Word("-ok"), InputEnd, t, n, e);
    WordFound("-ok", t, n, d);
  }

  lemma PlainIsNotKept(name: string, digits: string)
    requires IsName(name) && digits != "" && AllIn(Digit, digits)
    ensures !TestFrom(SUPPRESSION_MARKER, (name + "-") + (digits + ""), 0)
  {
    var t := (name + "-") + (digits + "");
    TestExactly(SUPPRESSION_MARKER, t, 0);
    forall k: nat ensures !IsFoundAt(SUPPRESSION_MARKER, t, k) {
      if IsFoundAt(SUPPRESSION_MARKER, t, k) {
        var n := SuppressionFound(t, k, Ends(SUPPRESSION_MARKER, t, k)[0]);
        AtChar(t, n, "-ok", 1);
        NoLetterO(name, digits, n + 1);
      }
    }
  }

  lemma NoLetterO(name: string, digits: string, k: nat)
    requires IsName(name) && AllIn(Digit, digits) && k < |(name + "-") + (digits + "")|
    ensures ((name + "-") + (digits + ""))[k] != 'o'
  {
    var t := (name + "-") + (digits + "");
    if k > |name| {
      assert t[k] == digits[k - |name| - 1];
      assert In(Digit, digits[k - |name| - 1]);
    }
  }

  lemma MatchesStep(v: string, k: nat, e: nat)
    requires k < |v| && First(WORK_ITEM_ID, v, k, e)
    ensures !MayBeEmpty(WORK_ITEM_ID) && k < e <= |v|
    ensures MatchesFrom(WORK_ITEM_ID, v, k) == [v[k..e]] + MatchesFrom(WORK_ITEM_ID, v, e)
  {
    ItemParts();
    FirstIsInText(WORK_ITEM_ID, v, k, e);
    Consumed(WORK_ITEM_ID, v, k, e);
    hide Ends, MayBeEmpty;
  }

  lemma CountedText(v: string, k: nat, name: string, digits: string, ok: string)
    requires CountsAt(v, k, name, digits, ok)
    ensures var e := k + |name| + 1 + |digits| + |ok|; e <= |v| && v[k..e] == (name + "-") + (digits + ok)
  {
  }

  lemma NameIsWord(name: string)
    requires IsName(name)
    ensures |name| >= 3 && (name[0] == 'M' || name[0] == 'L') && forall j :: 0 <= j < |name| ==> IsWordChar(name[j])
  {
  }

  lemma StartsWord(v: string, k: nat, name: string, digits: string, ok: string)
    requires CountsAt(v, k, name, digits, ok)
    ensures k < |v| && (v[k] == 'M' || v[k] == 'L') && (k == 0 || !IsWordChar(v[k - 1]))
  {
    AtThree(v, k, name + "-", digits, ok);
    NameIsWord(name);
    hide IsName, IsWordChar;
    AtChar(v, k, name + "-", 0);
  }

  lemma InName(v: string, i: nat, name: string, k: nat)
    requires IsName(name) && At(v, i, name + "-") && i < k < i + |name| + 1
    ensures k < |v| && (v[k] == '-' || IsWordChar(v[k - 1]))
  {
    NameIsWord(name);
    hide IsName, IsWordChar;
    AtChar(v, i, name + "-", k - i);
    AtChar(v, i, name + "-", k - 1 - i);
  }

  lemma InTail(v: string, a: nat, digits: string, ok: string, k: nat)
    requires AllIn(Digit, digits) && (ok == "" || ok == "-ok") && At(v, a, digits) && At(v, a + |digits|, ok)
    requires a <= k < a + |digits| + |ok|
    ensures k < |v| && v[k] != 'M' && v[k] != 'L'
  {
    hide At;
    if k < a + |digits| {
      AtChar(v, a, digits, k - a);
      assert In(Digit, digits[k - a]);
    } else {
      AtChar(v, a + |digits|, ok, k - a - |digits|);
    }
  }

  /** No two IDs that count overlap. */
  lemma CountsApart(v: string, i: nat, k: nat, name: string, digits: string, ok: string,
                    name2: string, digits2: string, ok2: string)
    requires CountsAt(v, i, name, digits, ok) && CountsAt(v, k, name2, digits2, ok2) && i < k
    ensures i + |name| + 1 + |digits| + |ok| <= k
  {
    var a := i + |name| + 1;
    StartsWord(v, k, name2, digits2, ok2);
    AtThree(v, i, name + "-", digits, ok);
    assert IsName(name) && AllIn(Digit, digits) && (ok == "" || ok == "-ok") && |name + "-"| == |name| + 1;
    hide *;
    if k < a {
      InName(v, i, name, k);
    } else if k < a + |digits| + |ok| {
      InTail(v, a, digits, ok, k);
    }
  }

  lemma LastOfItem(v: string, k: nat, name: string, digits: string, ok: string)
    requires CountsAt(v, k, name, digits, ok)
    ensures var e := k + |name| + 1 + |digits| + |ok|; 0 < e <= |v| && (IsDigit(v[e - 1]) <==> ok == "")
  {
    CountsParts(v, k, name, digits, ok);
    hide IsName, AllIn, WordStops, IsMarked, At;
    if ok != "" { AtChar(v, k + |name| + 1 + |digits|, ok, 2); }
  }

  /** At one place an ID counts in one way alone. */
  lemma CountsOnce(v: string, k: nat, name: string, digits: string, ok: string,
                   name2: string, digits2: string, ok2: string)
    requires CountsAt(v, k, name, digits, ok) && CountsAt(v, k, name2, digits2, ok2)
    ensures ok == "" <==> ok2 == ""
  {
    hide *;
    FirstItem(v, k, name, digits, ok);
    FirstItem(v, k, name2, digits2, ok2);
    LastOfItem(v, k, name, digits, ok);
    LastOfItem(v, k, name2, digits2, ok2);
    OneFirst(WORK_ITEM_ID, v, k, k + |name| + 1 + |digits| + |ok|, k + |name2| + 1 + |digits2| + |ok2|);
  }

  lemma OneFirst(re: Re, v: string, k: nat, d: nat, e: nat)
    requires k <= |v| && First(re, v, k, d) && First(re, v, k, e)
    ensures d == e
  {
  }

  lemma ReportedStep(v: string, i: nat, name: string, digits: string, ok: string)
    requires CountsAt(v, i, name, digits, ok)
    ensures var e := i + |name| + 1 + |digits| + |ok|;
            && i < e <= |v| && !MayBeEmpty(WORK_ITEM_ID)
            && (ok == "" ==> Reportable(MatchesFrom(WORK_ITEM_ID, v, i)) != [])
            && (ok != "" ==>
                  Reportable(MatchesFrom(WORK_ITEM_ID, v, i)) == Reportable(MatchesFrom(WORK_ITEM_ID, v, e)))
  {
    var e := i + |name| + 1 + |digits| + |ok|;
    FirstItem(v, i, name, digits, ok);
    CountedText(v, i, name, digits, ok);
    MarkerIsKept(name, digits);
    PlainIsNotKept(name, digits);
    assert ok == "" || ok == "-ok";
    hide Ends, CountsAt, First, MayBeEmpty, TestFrom;
    MatchesStep(v, i, e);
    var more := MatchesFrom(WORK_ITEM_ID, v, e);
    assert ([v[i..e]] + more)[0] == v[i..e] && ([v[i..e]] + more)[1..] == more;
  }

  ghost predicate RefersFrom(v: string, i: nat) {
    exists k: nat, name, digits :: i <= k && CountsAt(v, k, name, digits, "")
  }

  /** Looking on behind an ID that is a marker, or behind a place without one. */
  lemma RefersBehind(v: string, i: nat, e: nat, name: string, digits: string)
    requires i < e && ((e == i + |name| + 1 + |digits| + 3 && CountsAt(v, i, name, digits, "-ok"))
                       || (e == i + 1 && forall n, d, ok :: !CountsAt(v, i, n, d, ok)))
    ensures RefersFrom(v, i) <==> RefersFrom(v, e)
  {
    hide CountsAt;
    if RefersFrom(v, i) {
      var k: nat, n, d :| i <= k && CountsAt(v, k, n, d, "");
      if CountsAt(v, i, name, digits, "-ok") {
        if k == i { CountsOnce(v, i, n, d, "", name, digits, "-ok"); }
        if k > i { CountsApart(v, i, k, name, digits, "-ok", n, d, ""); }
      }
    }
  }

  lemma {:induction false} ReportedFrom(v: string, i: nat)
    requires i <= |v|
    ensures !MayBeEmpty(WORK_ITEM_ID)
    ensures Reportable(MatchesFrom(WORK_ITEM_ID, v, i)) != [] <==> RefersFrom(v, i)
    decreases |v| - i
  {
    ItemParts();
    hide Ends, CountsAt, First, MayBeEmpty, TestFrom, RefersFrom;
    if i == |v| {
      NoneAtEnd(v);
    } else if Ends(WORK_ITEM_ID, v, i) != [] {
      var name, digits, ok := ItemFound(v, i, Ends(WORK_ITEM_ID, v, i)[0]);
      ReportedStep(v, i, name, digits, ok);
      if ok == "" {
        RefersHere(v, i, name, digits);
      } else {
        OkIs(v, i, name, digits, ok);
        ReportedFrom(v, i + |name| + 1 + |digits| + 3);
        RefersBehind(v, i, i + |name| + 1 + |digits| + 3, name, digits);
      }
    } else {
      NothingCounts(v, i);
      ReportedFrom(v, i + 1);
      RefersBehind(v, i, i + 1, "", "");
    }
  }

  lemma NoneAtEnd(v: string)
    ensures !RefersFrom(v, |v|)
  {
    hide CountsAt;
    forall k: nat, name, digits | |v| <= k ensures !CountsAt(v, k, name, digits, "") {
      if CountsAt(v, k, name, digits, "") { StartsWord(v, k, name, digits, ""); }
    }
  }

  lemma RefersHere(v: string, i: nat, name: string, digits: string)
    requires CountsAt(v, i, name, digits, "")
    ensures RefersFrom(v, i)
  {
  }

  lemma OkIs(v: string, i: nat, name: string, digits: string, ok: string)
    requires CountsAt(v, i, name, digits, ok) && ok != ""
    ensures ok == "-ok"
  {
  }

  lemma NothingCounts(v: string, i: nat)
    requires i <= |v| && Ends(WORK_ITEM_ID, v, i) == []
    ensures forall name, digits, ok :: !CountsAt(v, i, name, digits, ok)
  {
    hide CountsAt, Ends;
    forall name, digits, ok ensures !CountsAt(v, i, name, digits, ok) {
      if CountsAt(v, i, name, digits, ok) {
        FirstItem(v, i, name, digits, ok);
        assert false;
      }
    }
  }

  /** An ID that is a word of its own and carries no `-ok` stands somewhere in the comment. */
  ghost predicate HasReference(v: string) {
    exists k: nat, name, digits :: CountsAt(v, k, name, digits, "")
  }

  /** IDs are reported of a comment exactly when it holds a reference. */
  lemma ReportedExactly(v: string)
    ensures ReportableIds(v) != [] <==> HasReference(v)
  {
    ReportedFrom(v, 0);
    hide Ends, CountsAt, MayBeEmpty;
    assert HasReference(v) <==> RefersFrom(v, 0);
  }
}
