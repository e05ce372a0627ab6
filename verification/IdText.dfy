/** Work-item IDs as they stand in a text, without any expression; and what the expressions make of them. */
module IdText {
  import opened Options
  import opened Regex
  import opened RegexFirst
  import opened WorkItemIds

  // ----- text at a place -----

  predicate At(s: string, i: nat, t: string) { i + |t| <= |s| && s[i..i + |t|] == t }

  lemma AtChar(s: string, i: nat, t: string, k: nat)
    requires At(s, i, t) && k < |t|
    ensures i + k < |s| && s[i + k] == t[k]
  {
    assert s[i..i + |t|][k] == s[i + k];
  }

  lemma AtConcat(s: string, i: nat, a: string, b: string)
    ensures At(s, i, a + b) <==> At(s, i, a) && At(s, i + |a|, b)
  {
    if i + |a| + |b| <= |s| {
      var t := s[i..i + |a| + |b|];
      assert t[..|a|] == s[i..i + |a|] && t[|a|..] == s[i + |a|..i + |a| + |b|];
      assert (a + b)[..|a|] == a && (a + b)[|a|..] == b && t == t[..|a|] + t[|a|..];
    }
  }

  lemma AtThree(s: string, i: nat, a: string, b: string, c: string)
    requires At(s, i, a + (b + c))
    ensures At(s, i, a) && At(s, i + |a|, b) && At(s, i + |a| + |b|, c)
    ensures i + |a| + |b| + |c| == i + |a + (b + c)| <= |s|
  {
    AtConcat(s, i, a, b + c);
    AtConcat(s, i + |a|, b, c);
  }

  predicate AllIn(cls: Class, t: string) { forall k :: 0 <= k < |t| ==> In(cls, t[k]) }

  lemma AllInAt(cls: Class, s: string, i: nat, t: string)
    requires At(s, i, t) && AllIn(cls, t)
    ensures forall k :: i <= k < i + |t| ==> In(cls, s[k])
  {
    forall k | i <= k < i + |t| ensures In(cls, s[k]) { AtChar(s, i, t, k - i); }
  }

  // ----- IDs -----

  predicate IsName(name: string) { name == "MINCRM" || name == "LAR" || name == "MININT" }

  predicate NameAt(s: string, k: nat, name: string) {
    k + |name| + 1 < |s| && s[k..k + |name|] == name && s[k + |name|] == '-' && IsDigit(s[k + |name| + 1])
  }

  /** One of the three names, a hyphen and a digit. */
  predicate IdAt(s: string, k: nat) { NameAt(s, k, "MINCRM") || NameAt(s, k, "LAR") || NameAt(s, k, "MININT") }

  /** Every ID that begins from `from` on begins between these places. */
  predicate OnlyIdsIn(s: string, from: nat, a: nat, b: nat) { forall k :: from <= k < |s| && IdAt(s, k) ==> a <= k < b }

  predicate NoIds(s: string) { forall k :: 0 <= k < |s| ==> !IdAt(s, k) }

  // ----- where the expressions find one -----

  const NAME_WORDS: Re := Or(Word("MINCRM"), Or(Word("LAR"), Word("MININT")))

  lemma PrefixIs()
    ensures PREFIX == Cat(NAME_WORDS, Chr('-'))
  {
  }

  lemma WordFound(w: string, s: string, i: nat, e: nat)
    requires i <= |s| && e in Ends(Word(w), s, i)
    ensures e == i + |w| <= |s| && s[i..e] == w
  {
  }

  lemma CharFound(cls: Class, s: string, i: nat, e: nat)
    requires i <= |s| && e in Ends(Ch(cls), s, i)
    ensures e == i + 1 <= |s| && In(cls, s[i])
  {
  }

  lemma NameFound(s: string, i: nat, e: nat) returns (name: string)
    requires i <= |s| && e in Ends(NAME_WORDS, s, i)
    ensures IsName(name) && e == i + |name| <= |s| && s[i..e] == name && (s[i] == 'M' || s[i] == 'L')
  {
    OrUnfolds(Word("MINCRM"), Or(Word("LAR"), Word("MININT")), s, i);
    OrUnfolds(Word("LAR"), Word("MININT"), s, i);
    hide Ends;
    if e in Ends(Word("MINCRM"), s, i) {
      WordFound("MINCRM", s, i, e);
      name := "MINCRM";
    } else if e in Ends(Word("LAR"), s, i) {
      WordFound("LAR", s, i, e);
      name := "LAR";
    } else {
      WordFound("MININT", s, i, e);
      name := "MININT";
    }
    AtChar(s, i, name, 0);
  }

  /** Where a prefix and a number match, an ID stands. */
  lemma IdFound(rest: Re, s: string, i: nat, e: nat)
    requires i <= |s| && e in Ends(Cat(PREFIX, Cat(NUMBER, rest)), s, i)
    ensures i < |s| && IdAt(s, i)
  {
    PrefixIs();
    var m := CatSplits(PREFIX, Cat(NUMBER, rest), s, i, e);
    var n := CatSplits(NUMBER, rest, s, m, e);
    var h := CatSplits(NAME_WORDS, Chr('-'), s, i, m);
    var name := NameFound(s, i, h);
    CharFound(One('-'), s, h, m);
    var d := CatSplits(Ch(Digit), Many(Ch(Digit)), s, m, n);
    CharFound(Digit, s, m, d);
    assert NameAt(s, i, name);
  }

  // ----- first choices -----

  lemma FirstNumber(s: string, i: nat, digits: string)
    requires At(s, i, digits) && digits != "" && AllIn(Digit, digits)
    requires i + |digits| < |s| ==> !IsDigit(s[i + |digits|])
    ensures First(NUMBER, s, i, i + |digits|)
  {
    AllInAt(Digit, s, i, digits);
    FirstRunOfSome(Digit, s, i, i + |digits|);
  }

  lemma FirstLar(s: string, i: nat)
    requires At(s, i, "LAR")
    ensures First(NAME_WORDS, s, i, i + 3)
  {
    NotMincrm(s, i, "LAR");
    FirstWord("LAR", s, i);
    hide First, Fails;
    FirstOr(Word("LAR"), Word("MININT"), s, i, i + 3);
    FirstOr(Word("MINCRM"), Or(Word("LAR"), Word("MININT")), s, i, i + 3);
  }

  lemma FirstMinint(s: string, i: nat)
    requires At(s, i, "MININT")
    ensures First(NAME_WORDS, s, i, i + 6)
  {
    NotMincrm(s, i, "MININT");
    NotLar(s, i);
    FirstWord("MININT", s, i);
    hide First, Fails;
    FirstOr(Word("LAR"), Word("MININT"), s, i, i + 6);
    FirstOr(Word("MINCRM"), Or(Word("LAR"), Word("MININT")), s, i, i + 6);
  }

  lemma FirstName(s: string, i: nat, name: string)
    requires IsName(name) && At(s, i, name)
    ensures First(NAME_WORDS, s, i, i + |name|)
  {
    if name == "LAR" {
      FirstLar(s, i);
    } else if name == "MININT" {
      FirstMinint(s, i);
    } else {
      FirstWord("MINCRM", s, i);
      hide First, Fails;
      FirstOr(Word("MINCRM"), Or(Word("LAR"), Word("MININT")), s, i, i + 6);
    }
  }

  lemma WordDiffers(w: string, s: string, i: nat, k: nat)
    requires k < |w| && i + k < |s| && s[i + k] != w[k]
    ensures Fails(Word(w), s, i)
  {
    if i + |w| <= |s| { assert s[i..i + |w|][k] == s[i + k]; }
  }

  lemma NotMincrm(s: string, i: nat, name: string)
    requires (name == "LAR" || name == "MININT") && At(s, i, name)
    ensures Fails(Word("MINCRM"), s, i)
  {
    var k := if name == "LAR" then 0 else 3;
    AtChar(s, i, name, k);
    WordDiffers("MINCRM", s, i, k);
  }

  lemma NotLar(s: string, i: nat)
    requires At(s, i, "MININT")
    ensures Fails(Word("LAR"), s, i)
  {
    AtChar(s, i, "MININT", 0);
    WordDiffers("LAR", s, i, 0);
  }

  lemma FirstPrefix(s: string, i: nat, name: string)
    requires IsName(name) && At(s, i, name + "-")
    ensures First(PREFIX, s, i, i + |name| + 1)
  {
    AtConcat(s, i, name, "-");
    AtChar(s, i + |name|, "-", 0);
    FirstName(s, i, name);
    FirstChar(One('-'), s, i + |name|);
    PrefixIs();
    hide First;
    FirstCat(NAME_WORDS, Chr('-'), s, i, i + |name|, i + |name| + 1);
  }

  lemma FailsPrefix(s: string, i: nat)
    requires i <= |s| && (i < |s| ==> s[i] != 'M' && s[i] != 'L')
    ensures Fails(PREFIX, s, i)
  {
    if Ends(PREFIX, s, i) != [] {
      PrefixIs();
      var e := Ends(PREFIX, s, i)[0];
      var m := CatSplits(NAME_WORDS, Chr('-'), s, i, e);
      var name := NameFound(s, i, m);
    }
  }
}
