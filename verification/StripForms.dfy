/** The forms an ID takes in a comment, character by character: which of the three expressions finds it, and where. */
module StripForms {
  import opened Options
  import opened Regex
  import opened RegexFirst
  import opened WorkItemIds
  import opened IdText
  import opened IdLists

  // ----- what stands before an ID that an expression finds -----

  /** The last character before `k` that is no space. */
  predicate IsLastBefore(s: string, k: nat, p: nat) {
    p < k <= |s| && !IsSpace(s[p]) && forall j :: p < j < k ==> IsSpace(s[j])
  }

  predicate BlanksIn(s: string, a: nat, b: nat) { a <= b <= |s| && forall k :: a <= k < b ==> IsBlank(s[k]) }

  predicate SpacesIn(s: string, a: nat, b: nat) { a <= b <= |s| && forall k :: a <= k < b ==> IsSpace(s[k]) }

  /** `(`, or `(see` and spaces, right before `q`. */
  predicate OpensAt(s: string, p: nat, q: nat) {
    && p < q <= |s| && s[p] == '('
    && (q == p + 1 || (p + 4 < q && At(s, p + 1, "see") && SpacesIn(s, p + 4, q)))
  }

  lemma SeeFound(s: string, p: nat, q: nat)
    requires p <= |s| && q in Ends(SEE, s, p)
    ensures q == p || (p + 3 < q <= |s| && At(s, p, "see") && SpacesIn(s, p + 3, q))
  {
    MaybeUnfolds(Cat(Word("see"), Some1(Ch(Space))), s, p);
    if q != p {
      assert q in Ends(Cat(Word("see"), Some1(Ch(Space))), s, p);
      var m := CatSplits(Word("see"), Some1(Ch(Space)), s, p, q);
      WordFound("see", s, p, m);
      var d := CatSplits(Ch(Space), Many(Ch(Space)), s, m, q);
      CharFound(Space, s, m, d);
      RunHolds(Space, s, d, q);
    }
  }

  const LIST_IN_PARENTHESES: Re := Cat(PREFIX, Cat(NUMBER, Cat(MORE_NUMBERS, Chr(')'))))

  lemma PureFound(s: string, k: nat, e: nat) returns (p: nat, q: nat)
    requires k <= |s| && e in Ends(PURE_PARENTHETICAL, s, k)
    ensures BlanksIn(s, k, p) && OpensAt(s, p, q) && q < |s| && IdAt(s, q)
  {
    p := CatSplits(BLANKS, Cat(Chr('('), Cat(SEE, LIST_IN_PARENTHESES)), s, k, e);
    RunHolds(Blank, s, k, p);
    var m := CatSplits(Chr('('), Cat(SEE, LIST_IN_PARENTHESES), s, p, e);
    CharFound(One('('), s, p, m);
    q := CatSplits(SEE, LIST_IN_PARENTHESES, s, m, e);
    SeeFound(s, m, q);
    IdFound(Cat(MORE_NUMBERS, Chr(')')), s, q, e);
  }

  /** `//`, `*`, a slash and stars, or a brace and both. */
  predicate MarkerAt(s: string, a: nat, b: nat) {
    && a < b <= |s| && (forall k :: a <= k < b ==> s[k] == '/' || s[k] == '*' || s[k] == '{')
    && (s[b - 1] == '*' || s[b - 1] == '/')
  }

  const LABEL_MARKS: Re := Or(Word("//"), Or(Cat(Chr('/'), Some1(Chr('*'))), Or(Chr('*'), Word("{/*"))))

  const LAST_MARKS: Re := Or(Chr('*'), Word("{/*"))

  lemma LastMarkFound(s: string, a: nat, b: nat)
    requires a <= |s| && b in Ends(LAST_MARKS, s, a)
    ensures MarkerAt(s, a, b)
  {
    OrUnfolds(Chr('*'), Word("{/*"), s, a);
    if b in Ends(Chr('*'), s, a) {
      CharFound(One('*'), s, a, b);
    } else {
      WordFound("{/*", s, a, b);
      var t := "{/*";
      AtChar(s, a, t, 0);
      AtChar(s, a, t, 1);
      AtChar(s, a, t, 2);
    }
  }

  lemma SlashesFound(s: string, a: nat, b: nat)
    requires a <= |s| && b in Ends(Word("//"), s, a)
    ensures MarkerAt(s, a, b)
  {
    var t := "//";
    WordFound(t, s, a, b);
    AtChar(s, a, t, 0);
    AtChar(s, a, t, 1);
  }

  lemma MarkFound(s: string, a: nat, b: nat)
    requires a <= |s| && b in Ends(LABEL_MARKS, s, a)
    ensures MarkerAt(s, a, b)
  {
    var stars := Cat(Chr('/'), Some1(Chr('*')));
    OrUnfolds(Word("//"), Or(stars, LAST_MARKS), s, a);
    OrUnfolds(stars, LAST_MARKS, s, a);
    hide Ends, MarkerAt;
    if b in Ends(Word("//"), s, a) {
      SlashesFound(s, a, b);
    } else if b in Ends(stars, s, a) {
      StarsFound(s, a, b);
    } else {
      LastMarkFound(s, a, b);
    }
  }

  lemma StarsFound(s: string, a: nat, b: nat)
    requires a <= |s| && b in Ends(Cat(Chr('/'), Some1(Chr('*'))), s, a)
    ensures MarkerAt(s, a, b)
  {
    var m := CatSplits(Chr('/'), Some1(Chr('*')), s, a, b);
    CharFound(One('/'), s, a, m);
    var d := CatSplits(Chr('*'), Many(Chr('*')), s, m, b);
    CharFound(One('*'), s, m, d);
    RunHolds(One('*'), s, d, b);
  }

  /** The text begins a line at `r`, whose match may begin at the line feed before. */
  predicate LineBegins(s: string, k: nat, r: nat) {
    r <= |s| && ((k == 0 && r == 0) || (k < |s| && s[k] == '\n' && r == k + 1))
  }

  lemma AtLineFound(s: string, k: nat, r: nat)
    requires k <= |s| && r in Ends(AT_LINE, s, k)
    ensures LineBegins(s, k, r)
  {
    OrUnfolds(InputStart, Chr('\n'), s, k);
    if r in Ends(Chr('\n'), s, k) { CharFound(One('\n'), s, k, r); }
  }

  /** Blanks, a marker and blanks from the start of a line to `q`. */
  ghost predicate LabelledAt(s: string, k: nat, q: nat) {
    exists r: nat, a: nat, b: nat :: LineBegins(s, k, r) && BlanksIn(s, r, a) && MarkerAt(s, a, b) && BlanksIn(s, b, q)
  }

  lemma BlanksHold(s: string, i: nat, e: nat)
    requires i <= |s| && e in Ends(BLANKS, s, i)
    ensures BlanksIn(s, i, e)
  {
    RunHolds(Blank, s, i, e);
  }

  const LABEL_END: Re := Cat(BLANKS, Cat(Ch(Among(":—-")), BLANKS))

  const RUN_END: Re := Cat(NOT_MARKER, Many(BodyOf(InRun)))

  lemma LabelParts()
    ensures LABEL_MARKER == Cat(AT_LINE, Cat(BLANKS, Cat(LABEL_MARKS, BLANKS)))
    ensures LEADING_LABEL == Cat(ID_RUN, LABEL_END)
    ensures ID_RUN == Cat(PREFIX, Cat(NUMBER, RUN_END))
    ensures TRAILING_CITATION == Cat(BLANKS, Cat(DASH, Cat(BLANKS, Cat(ID_RUN, COMMENT_ENDS_HERE))))
    ensures DASH == Ch(Among("—,-"))
  {
  }

  lemma LabelMarkerFound(s: string, k: nat, q: nat)
    requires k <= |s| && q in Ends(LABEL_MARKER, s, k)
    ensures q <= |s| && LabelledAt(s, k, q)
  {
    LabelParts();
    assert LabelledAt(s, k, q) by {
      hide AT_LINE, BLANKS, LABEL_MARKS, LABEL_MARKER, Ends, BlanksIn, MarkerAt, LineBegins;
      var r := CatSplits(AT_LINE, Cat(BLANKS, Cat(LABEL_MARKS, BLANKS)), s, k, q);
      AtLineFound(s, k, r);
      var a := CatSplits(BLANKS, Cat(LABEL_MARKS, BLANKS), s, r, q);
      BlanksHold(s, r, a);
      var b := CatSplits(LABEL_MARKS, BLANKS, s, a, q);
      MarkFound(s, a, b);
      BlanksHold(s, b, q);
    }
    hide LabelledAt;
    Consumed(LABEL_MARKER, s, k, q);
  }

  lemma LabelFound(s: string, k: nat, q: nat, e: nat)
    requires k <= |s| && q in Ends(LABEL_MARKER, s, k) && q <= |s| && e in Ends(LEADING_LABEL, s, q)
    ensures LabelledAt(s, k, q) && q < |s| && IdAt(s, q)
  {
    LabelMarkerFound(s, k, q);
    LabelParts();
    hide *;
    var m := CatSplits(ID_RUN, LABEL_END, s, q, e);
    IdFound(RUN_END, s, q, m);
  }

  predicate IsDash(c: char) { c in "—,-" }

  ghost predicate CitedAt(s: string, k: nat, q: nat) {
    exists p: nat :: BlanksIn(s, k, p) && p < |s| && IsDash(s[p]) && BlanksIn(s, p + 1, q)
  }

  lemma CitationFound(s: string, k: nat, e: nat) returns (q: nat)
    requires k <= |s| && e in Ends(TRAILING_CITATION, s, k)
    ensures CitedAt(s, k, q) && q < |s| && k <= q && IdAt(s, q)
  {
    LabelParts();
    var run := Cat(ID_RUN, COMMENT_ENDS_HERE);
    hide Ends, BLANKS, DASH, ID_RUN, COMMENT_ENDS_HERE, RUN_END, TRAILING_CITATION, IdAt;
    var p := CatSplits(BLANKS, Cat(DASH, Cat(BLANKS, run)), s, k, e);
    BlanksHold(s, k, p);
    var m := CatSplits(DASH, Cat(BLANKS, run), s, p, e);
    CharFound(Among("—,-"), s, p, m);
    q := CatSplits(BLANKS, run, s, m, e);
    BlanksHold(s, m, q);
    var h := CatSplits(ID_RUN, COMMENT_ENDS_HERE, s, q, e);
    IdFound(RUN_END, s, q, h);
  }

  // ----- no expression finds what it does not fit -----

  ghost predicate Opened(s: string, q: nat) { exists p: nat :: OpensAt(s, p, q) }

  ghost predicate Labelled(s: string, q: nat) { exists k: nat :: LabelledAt(s, k, q) }

  ghost predicate Cited(s: string, q: nat) { exists k: nat :: CitedAt(s, k, q) }

  lemma PureOpens(s: string, k: nat, e: nat) returns (q: nat)
    requires k <= |s| && e in Ends(PURE_PARENTHETICAL, s, k)
    ensures k <= q < |s| && Opened(s, q) && IdAt(s, q)
  {
    var p;
    p, q := PureFound(s, k, e);
  }

  lemma PureNone(s: string, from: nat)
    requires forall q :: from <= q < |s| && IdAt(s, q) ==> !Opened(s, q)
    ensures !MayBeEmpty(PURE_RULE.drop) && Unmatched(PURE_RULE, s, from, |s|)
  {
    PureRuleIsGentle();
    forall k | from <= k < |s| ensures MatchAt(PURE_RULE, s, k) == None {
      if MatchAt(PURE_RULE, s, k).Some? {
        var m := MatchAt(PURE_RULE, s, k).value;
        var q := PureOpens(s, m.keepEnd, m.end);
      }
    }
  }

  lemma LabelNone(s: string, from: nat)
    requires forall q :: from <= q < |s| && IdAt(s, q) ==> !Labelled(s, q)
    ensures !MayBeEmpty(LABEL_RULE.drop) && Unmatched(LABEL_RULE, s, from, |s|)
  {
    LabelRuleIsGentle();
    hide Gentle;
    forall k | from <= k < |s| ensures MatchAt(LABEL_RULE, s, k) == None {
      if MatchAt(LABEL_RULE, s, k).Some? {
        var m := MatchAt(LABEL_RULE, s, k).value;
        LabelFound(s, k, m.keepEnd, m.end);
      }
    }
  }

  lemma CitationNone(s: string, from: nat)
    requires forall q :: from <= q < |s| && IdAt(s, q) ==> !Cited(s, q)
    ensures !MayBeEmpty(CITATION_RULE.drop) && Unmatched(CITATION_RULE, s, from, |s|)
  {
    CitationRuleIsGentle();
    forall k | from <= k < |s| ensures MatchAt(CITATION_RULE, s, k) == None {
      if MatchAt(CITATION_RULE, s, k).Some? {
        var m := MatchAt(CITATION_RULE, s, k).value;
        var q := CitationFound(s, m.keepEnd, m.end);
      }
    }
  }

  /** What the last character before an ID rules out. */
  lemma BehindChar(s: string, q: nat, last: nat)
    requires IsLastBefore(s, q, last)
    ensures s[last] != '(' && !(last >= 3 && At(s, last - 3, "(see")) ==> !Opened(s, q)
    ensures s[last] != '*' && s[last] != '/' ==> !Labelled(s, q)
    ensures !IsDash(s[last]) ==> !Cited(s, q)
  {
    if Opened(s, q) {
      var p: nat :| OpensAt(s, p, q);
      OpeningIsLast(s, p, q, last);
    }
    if Labelled(s, q) {
      var k: nat :| LabelledAt(s, k, q);
      var r: nat, a: nat, b: nat :| LineBegins(s, k, r) && BlanksIn(s, r, a) && MarkerAt(s, a, b) && BlanksIn(s, b, q);
      assert last == b - 1;
    }
    if Cited(s, q) {
      var k: nat :| CitedAt(s, k, q);
      var p: nat :| BlanksIn(s, k, p) && p < |s| && IsDash(s[p]) && BlanksIn(s, p + 1, q);
      assert last == p;
    }
  }

  lemma OpeningIsLast(s: string, p: nat, q: nat, last: nat)
    requires OpensAt(s, p, q) && IsLastBefore(s, q, last)
    ensures (last == p && s[last] == '(') || (last == p + 3 && At(s, p, "(see"))
  {
    if q != p + 1 {
      AtChar(s, p + 1, "see", 2);
      assert last == p + 3;
      AtConcat(s, p, "(", "see");
      assert "(" + "see" == "(see";
    }
  }

  // ----- the characters of a list -----

  predicate IsListChar(c: char) {
    'A' <= c <= 'Z' || IsDigit(c) || c == '-' || IsBlank(c) || c in ",./&and"
  }

  predicate AreListChars(t: string) { forall k :: 0 <= k < |t| ==> IsListChar(t[k]) }

  lemma NameChars(name: string)
    requires IsName(name)
    ensures AreListChars(name)
  {
  }

  lemma SeparatorChars(kind: Kind, sep: string)
    requires sep in SeparatorsOf(kind)
    ensures AreListChars(sep)
  {
  }

  lemma BothChars(a: string, b: string)
    requires AreListChars(a) && AreListChars(b)
    ensures AreListChars(a + b)
  {
  }

  lemma ClassChars(t: string)
    ensures AllIn(Blank, t) || AllIn(Digit, t) ==> AreListChars(t)
  {
    if AllIn(Blank, t) { forall k | 0 <= k < |t| ensures IsListChar(t[k]) { assert In(Blank, t[k]); } }
    if AllIn(Digit, t) { forall k | 0 <= k < |t| ensures IsListChar(t[k]) { assert In(Digit, t[k]); } }
  }

  lemma NextChars(kind: Kind, n: Next)
    requires IsNext(kind, n)
    ensures AreListChars(ShowNext(n))
  {
    ClassChars(n.before);
    ClassChars(n.after);
    ClassChars(n.digits);
    SeparatorChars(kind, n.sep);
    assert AreListChars(ShowName(n.name)) by {
      if n.name != "" {
        NameChars(n.name);
        BothChars(n.name, "-");
      }
    }
    hide AreListChars, ShowName, AllIn;
    var named := ShowName(n.name) + n.digits;
    BothChars(ShowName(n.name), n.digits);
    BothChars(n.after, named);
    BothChars(n.sep, n.after + named);
    BothChars(n.before, n.sep + (n.after + named));
  }

  lemma {:induction false} MoreChars(kind: Kind, ns: seq<Next>)
    requires AreNext(kind, ns)
    ensures AreListChars(ShowMore(ns))
  {
    hide AreListChars, ShowNext, IsNext;
    if ns != [] {
      assert IsNext(kind, ns[0]);
      NextChars(kind, ns[0]);
      MoreChars(kind, ns[1..]);
      BothChars(ShowNext(ns[0]), ShowMore(ns[1..]));
    } else {
      NoChars();
    }
  }

  lemma NoChars()
    ensures AreListChars("")
  {
  }

  lemma ListChars(kind: Kind, id: Id, ns: seq<Next>)
    requires IsId(id) && AreNext(kind, ns)
    ensures AreListChars(ShowList(id, ns)) && ShowList(id, ns) != ""
    ensures ShowList(id, ns)[0] == 'M' || ShowList(id, ns)[0] == 'L'
  {
    NameChars(id.name);
    BothChars(id.name, "-");
    ClassChars(id.digits);
    MoreChars(kind, ns);
    assert ShowList(id, ns)[0] == id.name[0];
    hide AreListChars, ShowMore;
    BothChars(id.digits, ShowMore(ns));
    BothChars(id.name + "-", id.digits + ShowMore(ns));
  }

  /** A list at `a`, up to `b`, told by its characters. */
  predicate IsListBetween(s: string, a: nat, b: nat) {
    a < b <= |s| && (s[a] == 'M' || s[a] == 'L') && forall k :: a <= k < b ==> IsListChar(s[k])
  }

  lemma ListIsBetween(kind: Kind, s: string, i: nat, id: Id, ns: seq<Next>)
    requires ListAt(kind, s, i, id, ns)
    ensures IsListBetween(s, i, i + |ShowList(id, ns)|)
  {
    ListChars(kind, id, ns);
    var t := ShowList(id, ns);
    hide ShowList, ListEnds, IsListChar;
    AtChar(s, i, t, 0);
    forall k | i <= k < i + |t| ensures IsListChar(s[k]) { AtChar(s, i, t, k - i); }
  }

  /** Inside a list nothing opens a parenthesis and nothing marks a line. */
  lemma InsideList(s: string, a: nat, b: nat, q: nat)
    requires IsListBetween(s, a, b) && a < q < b
    ensures !Opened(s, q) && !Labelled(s, q)
  {
    if Opened(s, q) {
      var p: nat :| OpensAt(s, p, q);
      OpensBehind(s, a, q, p);
    }
    if Labelled(s, q) {
      var k: nat :| LabelledAt(s, k, q);
      var r: nat, c: nat, d: nat :| LineBegins(s, k, r) && BlanksIn(s, r, c) && MarkerAt(s, c, d) && BlanksIn(s, d, q);
      MarksBehind(s, a, q, r, c, d);
    }
  }

  lemma OpensBehind(s: string, a: nat, q: nat, p: nat)
    requires a < q <= |s| && (s[a] == 'M' || s[a] == 'L') && OpensAt(s, p, q)
    ensures a < p || (a <= p + 3 < q && s[p + 3] == 'e')
  {
    if q != p + 1 { AtChar(s, p + 1, "see", 2); }
  }

  lemma MarksBehind(s: string, a: nat, q: nat, r: nat, c: nat, d: nat)
    requires a < q <= |s| && (s[a] == 'M' || s[a] == 'L')
    requires BlanksIn(s, r, c) && MarkerAt(s, c, d) && BlanksIn(s, d, q)
    ensures r > a
  {
  }
}
