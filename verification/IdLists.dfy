/** Lists of work-item IDs, as long as they may be, and how the expressions read them. */
module IdLists {
  import opened Options
  import opened Regex
  import opened RegexFirst
  import opened WorkItemIds
  import opened IdText

  datatype Id = Id(name: string, digits: string)

  /** A further number: a separator among blanks, a name or none, and digits. */
  datatype Next = Next(before: string, sep: string, after: string, name: string, digits: string)

  /** Lists in parentheses know three separators, all others five. */
  datatype Kind = InParentheses | InRun

  predicate IsNumber(digits: string) { digits != "" && AllIn(Digit, digits) }

  predicate IsId(id: Id) { IsName(id.name) && IsNumber(id.digits) }

  function SeparatorsOf(kind: Kind): seq<string> {
    if kind.InParentheses? then [",", "/", "&"] else [",", "..", "/", "&", "and"]
  }

  predicate IsNext(kind: Kind, n: Next) {
    && AllIn(Blank, n.before) && AllIn(Blank, n.after) && n.sep in SeparatorsOf(kind)
    && (n.sep == "and" ==> n.before != "")
    && (n.name == "" || IsName(n.name)) && IsNumber(n.digits)
  }

  predicate AreNext(kind: Kind, ns: seq<Next>) { forall k :: 0 <= k < |ns| ==> IsNext(kind, ns[k]) }

  function ShowName(name: string): string { if name == "" then "" else name + "-" }

  function ShowNext(n: Next): string { n.before + (n.sep + (n.after + (ShowName(n.name) + n.digits))) }

  function ShowMore(ns: seq<Next>): string { if ns == [] then "" else ShowNext(ns[0]) + ShowMore(ns[1..]) }

  function ShowList(id: Id, ns: seq<Next>): string { (id.name + "-") + (id.digits + ShowMore(ns)) }

  /** What may stand behind a list: no digit, no marker, and past the spaces no separator. */
  predicate ListEnds(s: string, e: nat) {
    && e <= |s| && !At(s, e, "-ok") && (e < |s| ==> !IsDigit(s[e]))
    && exists j :: e <= j <= |s| && SpacesTo(s, e, j)
  }

  predicate SpacesTo(s: string, e: nat, j: nat) {
    && e <= j <= |s| && (forall k :: e <= k < j ==> IsSpace(s[k]))
    && (j < |s| ==> !IsSpace(s[j]) && s[j] !in ",/&.a")
  }

  predicate ListAt(kind: Kind, s: string, i: nat, id: Id, ns: seq<Next>) {
    IsId(id) && AreNext(kind, ns) && At(s, i, ShowList(id, ns)) && ListEnds(s, i + |ShowList(id, ns)|)
  }

  // ----- reading one further number -----

  const NOT_OK: Re := NotAhead(Word("-ok"))

  const SEPARATOR: Re := Or(Chr(','), Or(Word(".."), Or(Chr('/'), Or(Chr('&'), Word("and")))))

  function SeparatorRe(kind: Kind): Re { if kind.InParentheses? then Ch(Among(",/&")) else SEPARATOR }

  function NumberRe(kind: Kind): Re { if kind.InParentheses? then NUMBER else Cat(NUMBER, NOT_OK) }

  function BodyOf(kind: Kind): Re {
    Cat(SPACES, Cat(SeparatorRe(kind), Cat(SPACES, Cat(Maybe(PREFIX), NumberRe(kind)))))
  }

  lemma BodiesAre()
    ensures MORE_NUMBERS == Many(BodyOf(InParentheses))
    ensures ID_RUN == Cat(PREFIX, Cat(NUMBER, Cat(NOT_MARKER, Many(BodyOf(InRun)))))
    ensures NOT_MARKER == NOT_OK
  {
  }

  lemma FirstNotOk(s: string, i: nat)
    requires i <= |s| && !At(s, i, "-ok")
    ensures First(NOT_OK, s, i, i)
  {
    FirstWord("-ok", s, i);
    FirstAhead(Word("-ok"), s, i);
  }

  lemma FirstNumberOf(kind: Kind, s: string, i: nat, digits: string)
    requires At(s, i, digits) && IsNumber(digits)
    requires var e := i + |digits|; (e < |s| ==> !IsDigit(s[e])) && !At(s, e, "-ok")
    ensures First(NumberRe(kind), s, i, i + |digits|)
  {
    FirstNumber(s, i, digits);
    FirstNotOk(s, i + |digits|);
    hide First;
    if kind.InRun? { FirstCat(NUMBER, NOT_OK, s, i, i + |digits|, i + |digits|); }
  }

  lemma FirstOptionalName(s: string, i: nat, name: string, digits: string)
    requires (name == "" || IsName(name)) && IsNumber(digits) && At(s, i, ShowName(name) + digits)
    ensures First(Maybe(PREFIX), s, i, i + |ShowName(name)|)
  {
    AtConcat(s, i, ShowName(name), digits);
    if name == "" {
      AtChar(s, i, digits, 0);
      FailsPrefix(s, i);
    } else {
      FirstPrefix(s, i, name);
    }
    hide First, Fails;
    FirstMaybe(PREFIX, s, i, i + |ShowName(name)|);
  }

  lemma FirstNamed(kind: Kind, s: string, i: nat, name: string, digits: string)
    requires (name == "" || IsName(name)) && IsNumber(digits) && At(s, i, ShowName(name) + digits)
    requires var e := i + |ShowName(name) + digits|; (e < |s| ==> !IsDigit(s[e])) && !At(s, e, "-ok")
    ensures First(Cat(Maybe(PREFIX), NumberRe(kind)), s, i, i + |ShowName(name) + digits|)
  {
    AtConcat(s, i, ShowName(name), digits);
    FirstOptionalName(s, i, name, digits);
    FirstNumberOf(kind, s, i + |ShowName(name)|, digits);
    hide First, NumberRe, ShowName;
    FirstCat(Maybe(PREFIX), NumberRe(kind), s, i, i + |ShowName(name)|, i + |ShowName(name) + digits|);
  }

  lemma FirstSeparator(kind: Kind, s: string, i: nat, sep: string)
    requires sep in SeparatorsOf(kind) && At(s, i, sep)
    ensures First(SeparatorRe(kind), s, i, i + |sep|)
  {
    AtChar(s, i, sep, 0);
    if kind.InParentheses? {
      FirstChar(Among(",/&"), s, i);
    } else {
      FirstSeparatorOfRun(s, i, sep);
    }
  }

  lemma OneOfFive(s: string, i: nat, sep: string)
    requires At(s, i, sep) && sep in SeparatorsOf(InRun)
    ensures i < |s| && s[i] == sep[0]
    ensures sep == "," ==> First(Chr(','), s, i, i + 1)
    ensures sep != "," ==> Fails(Chr(','), s, i)
    ensures sep == ".." ==> First(Word(".."), s, i, i + 2)
    ensures sep != ".." ==> Fails(Word(".."), s, i)
    ensures sep == "/" ==> First(Chr('/'), s, i, i + 1)
    ensures sep != "/" ==> Fails(Chr('/'), s, i)
    ensures sep == "&" ==> First(Chr('&'), s, i, i + 1)
    ensures sep == "and" ==> First(Word("and"), s, i, i + 3) && Fails(Chr('&'), s, i)
  {
    AtChar(s, i, sep, 0);
    FirstChar(One(','), s, i);
    FirstChar(One('/'), s, i);
    FirstChar(One('&'), s, i);
    FirstWord("..", s, i);
    FirstWord("and", s, i);
    if sep != ".." { WordDiffers("..", s, i, 0); }
    hide First, Fails;
  }

  lemma FirstSeparatorOfRun(s: string, i: nat, sep: string)
    requires sep in SeparatorsOf(InRun) && At(s, i, sep)
    ensures First(SEPARATOR, s, i, i + |sep|)
  {
    OneOfFive(s, i, sep);
    hide First, Fails;
    var e := i + |sep|;
    var amp := Or(Chr('&'), Word("and"));
    var slash := Or(Chr('/'), amp);
    var dots := Or(Word(".."), slash);
    if sep == "&" || sep == "and" { FirstOr(Chr('&'), Word("and"), s, i, e); }
    if sep != "," && sep != ".." { FirstOr(Chr('/'), amp, s, i, e); }
    if sep != "," { FirstOr(Word(".."), slash, s, i, e); }
    FirstOr(Chr(','), dots, s, i, e);
  }

  /** Blanks, however many, and then something that is no space. */
  lemma FirstBlanks(s: string, i: nat, blanks: string)
    requires AllIn(Blank, blanks) && At(s, i, blanks)
    requires i + |blanks| < |s| ==> !IsSpace(s[i + |blanks|])
    ensures First(SPACES, s, i, i + |blanks|) && First(BLANKS, s, i, i + |blanks|)
  {
    AllInAt(Blank, s, i, blanks);
    FirstRun(Space, s, i, i + |blanks|);
    FirstRun(Blank, s, i, i + |blanks|);
  }

  lemma NextAt(s: string, i: nat, before: string, sep: string, after: string, named: string)
    requires At(s, i, before + (sep + (after + named)))
    ensures var b := i + |before| + |sep|;
            && At(s, i, before) && At(s, i + |before|, sep) && At(s, b, after) && At(s, b + |after|, named)
            && b + |after| + |named| == i + |before + (sep + (after + named))| <= |s|
  {
    var tail := after + named;
    hide At;
    AtThree(s, i, before, sep, tail);
    AtConcat(s, i + |before| + |sep|, after, named);
  }

  /** Where the parts of a further number lie. */
  lemma NextParts(kind: Kind, s: string, i: nat, n: Next)
    requires IsNext(kind, n) && At(s, i, ShowNext(n))
    ensures var named := ShowName(n.name) + n.digits;
            var a := i + |n.before|;
            var b := a + |n.sep|;
            var c := b + |n.after|;
            && At(s, i, n.before) && At(s, a, n.sep) && At(s, b, n.after) && At(s, c, named)
            && c + |named| == i + |ShowNext(n)| <= |s|
            && a < |s| && !IsSpace(s[a]) && c < |s| && !IsSpace(s[c])
  {
    var named := ShowName(n.name) + n.digits;
    hide At, ShowName, AllIn, IsNumber, IsName, IsSpace;
    var b := i + |n.before| + |n.sep|;
    NextAt(s, i, n.before, n.sep, n.after, named);
    NotSpaceAt(kind, s, i + |n.before|, b + |n.after|, n, named);
  }

  lemma NextIsOfKind(kind: Kind, n: Next)
    requires IsNext(kind, n)
    ensures AllIn(Blank, n.before) && AllIn(Blank, n.after) && n.sep in SeparatorsOf(kind)
    ensures (n.name == "" || IsName(n.name)) && IsNumber(n.digits)
  {
  }

  lemma FirstNext(kind: Kind, s: string, i: nat, n: Next)
    requires IsNext(kind, n) && At(s, i, ShowNext(n))
    requires var e := i + |ShowNext(n)|; (e < |s| ==> !IsDigit(s[e])) && !At(s, e, "-ok")
    ensures i + |ShowNext(n)| <= |s| && First(BodyOf(kind), s, i, i + |ShowNext(n)|)
  {
    BodyIs(kind);
    hide *;
    NextParts(kind, s, i, n);
    NextIsOfKind(kind, n);
    var named := ShowName(n.name) + n.digits;
    var a := i + |n.before|;
    var b := a + |n.sep|;
    var c := b + |n.after|;
    var e := c + |named|;
    FirstBlanks(s, i, n.before);
    FirstSeparator(kind, s, a, n.sep);
    FirstBlanks(s, b, n.after);
    FirstNamed(kind, s, c, n.name, n.digits);
    var tail := Cat(Maybe(PREFIX), NumberRe(kind));
    FirstCat(SPACES, tail, s, b, c, e);
    FirstCat(SeparatorRe(kind), Cat(SPACES, tail), s, a, b, e);
    FirstCat(SPACES, Cat(SeparatorRe(kind), Cat(SPACES, tail)), s, i, a, e);
  }

  lemma BodyIs(kind: Kind)
    ensures BodyOf(kind) == Cat(SPACES, Cat(SeparatorRe(kind), Cat(SPACES, Cat(Maybe(PREFIX), NumberRe(kind)))))
  {
  }

  lemma NamedStarts(kind: Kind, n: Next)
    requires IsNext(kind, n)
    ensures n.sep != "" && !IsSpace(n.sep[0])
    ensures var named := ShowName(n.name) + n.digits; named != "" && !IsSpace(named[0])
  {
    var named := ShowName(n.name) + n.digits;
    if n.name == "" { assert named[0] == n.digits[0]; } else { assert named[0] == n.name[0]; }
  }

  lemma NotSpaceAt(kind: Kind, s: string, a: nat, c: nat, n: Next, named: string)
    requires IsNext(kind, n) && named == ShowName(n.name) + n.digits && At(s, a, n.sep) && At(s, c, named)
    ensures a < |s| && !IsSpace(s[a]) && c < |s| && !IsSpace(s[c])
  {
    NamedStarts(kind, n);
    hide *;
    AtChar(s, a, n.sep, 0);
    AtChar(s, c, named, 0);
  }

  // ----- reading a whole list -----

  lemma SeparatorFails(kind: Kind, s: string, k: nat)
    requires k <= |s| && (k < |s| ==> s[k] !in ",/&.a")
    ensures Fails(SeparatorRe(kind), s, k)
  {
    FirstChar(Among(",/&"), s, k);
    FirstChar(One(','), s, k);
    FirstChar(One('/'), s, k);
    FirstChar(One('&'), s, k);
    FirstWord("..", s, k);
    FirstWord("and", s, k);
    if k < |s| {
      WordDiffers("..", s, k, 0);
      WordDiffers("and", s, k, 0);
    }
    hide First, Fails;
    FailsOr(Chr('&'), Word("and"), s, k);
    FailsOr(Chr('/'), Or(Chr('&'), Word("and")), s, k);
    FailsOr(Word(".."), Or(Chr('/'), Or(Chr('&'), Word("and"))), s, k);
    FailsOr(Chr(','), Or(Word(".."), Or(Chr('/'), Or(Chr('&'), Word("and")))), s, k);
  }

  lemma BodyFails(kind: Kind, s: string, e: nat)
    requires ListEnds(s, e)
    ensures Fails(BodyOf(kind), s, e)
  {
    var j :| e <= j <= |s| && SpacesTo(s, e, j);
    var tail := Cat(SPACES, Cat(Maybe(PREFIX), NumberRe(kind)));
    forall k | e <= k <= j ensures Fails(Cat(SeparatorRe(kind), tail), s, k) {
      SpaceIsNoSeparator(s, e, j, k);
      SeparatorFails(kind, s, k);
      FailsCat(SeparatorRe(kind), tail, s, k);
    }
    hide Fails, SeparatorRe, NumberRe;
    FailsAfterRun(Space, Cat(SeparatorRe(kind), tail), s, e, j);
  }

  lemma SpaceIsNoSeparator(s: string, e: nat, j: nat, k: nat)
    requires SpacesTo(s, e, j) && e <= k <= j
    ensures k < |s| ==> s[k] !in ",/&.a"
  {
  }

  /** A further number begins with a blank or a separator, so with no digit and no hyphen. */
  lemma NextStarts(kind: Kind, s: string, i: nat, n: Next)
    requires IsNext(kind, n) && At(s, i, ShowNext(n))
    ensures i < |s| && !IsDigit(s[i]) && s[i] != '-' && !At(s, i, "-ok") && !IsWordChar(s[i])
  {
    AtChar(s, i, ShowNext(n), 0);
    if n.before != "" { assert ShowNext(n)[0] == n.before[0]; } else { assert ShowNext(n)[0] == n.sep[0]; }
    if At(s, i, "-ok") { AtChar(s, i, "-ok", 0); }
  }

  lemma {:induction false} FirstMore(kind: Kind, s: string, i: nat, ns: seq<Next>)
    requires AreNext(kind, ns) && At(s, i, ShowMore(ns)) && ListEnds(s, i + |ShowMore(ns)|)
    ensures First(Many(BodyOf(kind)), s, i, i + |ShowMore(ns)|)
    decreases |ns|
  {
    hide First, BodyOf, ShowNext, IsNext, ListEnds;
    if ns == [] {
      BodyFails(kind, s, i);
      FirstManyStop(BodyOf(kind), s, i);
    } else {
      var m := i + |ShowNext(ns[0])|;
      AtConcat(s, i, ShowNext(ns[0]), ShowMore(ns[1..]));
      NextIsClosed(kind, s, m, ns[1..]);
      assert IsNext(kind, ns[0]);
      FirstNext(kind, s, i, ns[0]);
      FirstMore(kind, s, m, ns[1..]);
      ShowsSomething(kind, ns[0]);
      FirstManyStep(BodyOf(kind), s, i, m, i + |ShowMore(ns)|);
    }
  }

  lemma ShowsSomething(kind: Kind, n: Next)
    requires IsNext(kind, n)
    ensures |ShowNext(n)| > 0
  {
  }

  /** Behind a number comes neither a digit nor the marker. */
  lemma NextIsClosed(kind: Kind, s: string, e: nat, ns: seq<Next>)
    requires AreNext(kind, ns) && At(s, e, ShowMore(ns)) && ListEnds(s, e + |ShowMore(ns)|)
    ensures (e < |s| ==> !IsDigit(s[e])) && !At(s, e, "-ok")
  {
    if ns != [] {
      AtConcat(s, e, ShowNext(ns[0]), ShowMore(ns[1..]));
      NextStarts(kind, s, e, ns[0]);
    }
  }

  lemma ListLength(id: Id, ns: seq<Next>)
    ensures |ShowList(id, ns)| == |id.name| + 1 + |id.digits| + |ShowMore(ns)|
  {
    hide ShowMore;
  }

  lemma ListIs(s: string, i: nat, id: Id, ns: seq<Next>)
    requires At(s, i, ShowList(id, ns))
    ensures At(s, i, id.name + "-") && At(s, i + |id.name| + 1, id.digits)
    ensures At(s, i + |id.name| + 1 + |id.digits|, ShowMore(ns))
  {
    var first := id.name + "-";
    assert |first| == |id.name| + 1;
    hide At, ShowMore;
    AtThree(s, i, first, id.digits, ShowMore(ns));
  }

  lemma ListParts(kind: Kind, s: string, i: nat, id: Id, ns: seq<Next>)
    requires ListAt(kind, s, i, id, ns)
    ensures var a := i + |id.name| + 1;
            var b := a + |id.digits|;
            && IsName(id.name) && IsNumber(id.digits) && AreNext(kind, ns)
            && At(s, i, id.name + "-") && At(s, a, id.digits) && At(s, b, ShowMore(ns))
            && b + |ShowMore(ns)| == i + |ShowList(id, ns)| <= |s| && ListEnds(s, b + |ShowMore(ns)|)
  {
    hide At, ShowMore, ShowList, ListEnds, AreNext, IsName, IsNumber;
    ListLength(id, ns);
    ListIs(s, i, id, ns);
    EndsInText(s, i + |ShowList(id, ns)|);
  }

  lemma EndsInText(s: string, e: nat)
    requires ListEnds(s, e)
    ensures e <= |s|
  {
  }

  /** The three parts of a list, one after the other. */
  lemma FirstList(kind: Kind, s: string, i: nat, id: Id, ns: seq<Next>)
    requires ListAt(kind, s, i, id, ns)
    ensures var a := i + |id.name| + 1;
            var b := a + |id.digits|;
            && a <= b <= i + |ShowList(id, ns)| <= |s|
            && First(PREFIX, s, i, a) && First(NUMBER, s, a, b) && First(NOT_OK, s, b, b)
            && First(Many(BodyOf(kind)), s, b, i + |ShowList(id, ns)|)
  {
    DigitsAre(id.digits);
    hide *;
    ListParts(kind, s, i, id, ns);
    var a := i + |id.name| + 1;
    var b := a + |id.digits|;
    NextIsClosed(kind, s, b, ns);
    FirstPrefix(s, i, id.name);
    FirstNumber(s, a, id.digits);
    FirstNotOk(s, b);
    FirstMore(kind, s, b, ns);
  }

  lemma DigitsAre(digits: string)
    ensures IsNumber(digits) ==> digits != "" && AllIn(Digit, digits)
  {
  }

  lemma FirstIdRun(s: string, i: nat, id: Id, ns: seq<Next>)
    requires ListAt(InRun, s, i, id, ns)
    ensures i + |ShowList(id, ns)| <= |s| && First(ID_RUN, s, i, i + |ShowList(id, ns)|)
  {
    FirstList(InRun, s, i, id, ns);
    BodiesAre();
    var a := i + |id.name| + 1;
    var b := a + |id.digits|;
    var e := i + |ShowList(id, ns)|;
    hide First, BodyOf, ListAt, ShowList;
    var more := Many(BodyOf(InRun));
    FirstCat(NOT_OK, more, s, b, b, e);
    FirstCat(NUMBER, Cat(NOT_OK, more), s, a, b, e);
    FirstCat(PREFIX, Cat(NUMBER, Cat(NOT_OK, more)), s, i, a, e);
  }
}
