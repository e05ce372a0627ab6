/** Text cut into lines the way `split('\n')` and `join('\n')` do it. */
module Text {

  /** `s.split('\n')`: always at least one line, and no line holds a line feed. */
  function Lines(s: string): (ls: seq<string>)
    ensures |ls| >= 1
    ensures forall k :: 0 <= k < |ls| ==> '\n' !in ls[k]
  {
    if s == "" then [""]
    else
      var rest := Lines(s[1..]);
      if s[0] == '\n' then [""] + rest else [[s[0]] + rest[0]] + rest[1..]
  }

  /** `ls.join('\n')`. */
  function Join(ls: seq<string>): string
  {
    if |ls| == 0 then ""
    else if |ls| == 1 then ls[0]
    else ls[0] + "\n" + Join(ls[1..])
  }

  /** `ls.filter((line) => line !== mark)`. */
  function Without(ls: seq<string>, mark: string): (kept: seq<string>)
    ensures mark !in kept
    ensures mark !in ls ==> kept == ls
  {
    if ls == [] then []
    else if ls[0] == mark then Without(ls[1..], mark)
    else [ls[0]] + Without(ls[1..], mark)
  }

  /** The text with every line equal to `mark` taken out. */
  function DropLines(s: string, mark: string): string {
    Join(Without(Lines(s), mark))
  }

  lemma {:induction false} JoinCons(l: string, ls: seq<string>)
    requires |ls| >= 1
    ensures Join([l] + ls) == l + "\n" + Join(ls)
  {
    assert ([l] + ls)[1..] == ls;
  }

  lemma {:induction false} JoinLines(s: string)
    ensures Join(Lines(s)) == s
  {
    if s != "" {
      var rest := Lines(s[1..]);
      JoinLines(s[1..]);
      if s[0] == '\n' {
        JoinCons("", rest);
        assert "" + "\n" + s[1..] == s;
      } else if |rest| == 1 {
        assert [[s[0]] + rest[0]] + rest[1..] == [[s[0]] + rest[0]];
        assert [s[0]] + s[1..] == s;
      } else {
        JoinCons([s[0]] + rest[0], rest[1..]);
        assert [s[0]] + s[1..] == s;
        assert [s[0]] + rest[0] + "\n" + Join(rest[1..]) == [s[0]] + (rest[0] + "\n" + Join(rest[1..]));
      }
    }
  }

  /** A line feed separates the lines before it from the lines after it. */
  lemma {:induction false} LinesAcrossBreak(a: string, b: string)
    ensures Lines(a + "\n" + b) == Lines(a) + Lines(b)
  {
    assert Lines("") == [""];
    hide Lines;
    if a == "" {
      assert a + "\n" + b == ['\n'] + b;
      LinesCons('\n', b);
    } else {
      LinesAcrossBreak(a[1..], b);
      FirstAcrossBreak(a, b);
      LinesCons(a[0], a[1..]);
      LinesCons(a[0], a[1..] + "\n" + b);
      FirstLineGrows(a[0], Lines(a[1..]), Lines(b));
    }
  }

  lemma FirstAcrossBreak(a: string, b: string)
    requires a != ""
    ensures a == [a[0]] + a[1..] && a + "\n" + b == [a[0]] + (a[1..] + "\n" + b)
  {
  }

  lemma FirstLineGrows(c: char, ls: seq<string>, more: seq<string>)
    requires |ls| >= 1
    ensures [""] + (ls + more) == [""] + ls + more
    ensures [[c] + (ls + more)[0]] + (ls + more)[1..] == [[c] + ls[0]] + ls[1..] + more
  {
    assert (ls + more)[1..] == ls[1..] + more;
  }

  lemma LinesCons(c: char, s: string)
    ensures Lines([c] + s) == if c == '\n' then [""] + Lines(s) else [[c] + Lines(s)[0]] + Lines(s)[1..]
  {
    assert ([c] + s)[1..] == s;
  }

  /** Cutting joined lines gives the lines back. */
  lemma {:induction false} LinesOfJoin(ls: seq<string>)
    requires |ls| >= 1
    requires forall k :: 0 <= k < |ls| ==> '\n' !in ls[k]
    ensures Lines(Join(ls)) == ls
  {
    LinesOfOne(ls[0]);
    if |ls| > 1 {
      LinesOfJoin(ls[1..]);
      LinesAcrossBreak(ls[0], Join(ls[1..]));
    }
  }

  lemma {:induction false} LinesOfOne(l: string)
    requires '\n' !in l
    ensures Lines(l) == [l]
  {
    if l != "" {
      LinesOfOne(l[1..]);
      assert [l[0]] + l[1..] == l;
    }
  }

  lemma {:induction false} JoinSplit(ls: seq<string>, j: nat)
    requires 0 < j < |ls|
    ensures Join(ls) == Join(ls[..j]) + "\n" + Join(ls[j..])
  {
    if j > 1 {
      JoinSplit(ls[1..], j - 1);
      assert ls[1..][..j - 1] == ls[..j][1..];
      assert ls[1..][j - 1..] == ls[j..];
      var mid := Join(ls[..j][1..]);
      assert Join(ls) == ls[0] + "\n" + (mid + "\n" + Join(ls[j..]));
      assert Join(ls[..j]) == ls[0] + "\n" + mid;
      assert ls[0] + "\n" + (mid + "\n" + Join(ls[j..])) == ls[0] + "\n" + mid + "\n" + Join(ls[j..]);
    } else {
      assert ls[..1] == [ls[0]];
    }
  }

  lemma {:induction false} WithoutConcat(a: seq<string>, b: seq<string>, mark: string)
    ensures Without(a + b, mark) == Without(a, mark) + Without(b, mark)
  {
    if a == [] {
      assert a + b == b;
    } else {
      assert (a + b)[1..] == a[1..] + b;
      WithoutConcat(a[1..], b, mark);
    }
  }

  lemma {:induction false} JoinNoLonger(ls: seq<string>, mark: string)
    ensures |Join(Without(ls, mark))| <= |Join(ls)|
  {
    if |ls| > 1 {
      JoinNoLonger(ls[1..], mark);
      var kept := Without(ls[1..], mark);
      if ls[0] != mark && kept != [] {
        JoinCons(ls[0], kept);
      } else if ls[0] != mark {
        assert [ls[0]] + kept == [ls[0]];
      }
    } else if |ls| == 1 {
      assert ls[1..] == [];
    }
  }

  /** Dropping lines never lengthens the text. */
  lemma DropLinesNoLonger(s: string, mark: string)
    ensures |DropLines(s, mark)| <= |s|
  {
    JoinLines(s);
    JoinNoLonger(Lines(s), mark);
  }

  lemma {:induction false} LineChars(s: string, k: nat, c: char)
    requires k < |Lines(s)| && c in Lines(s)[k]
    ensures c in s
  {
    if s != "" {
      var rest := Lines(s[1..]);
      if s[0] == '\n' {
        if k > 0 { LineChars(s[1..], k - 1, c); }
      } else if k > 0 {
        LineChars(s[1..], k, c);
      } else if c != s[0] {
        LineChars(s[1..], 0, c);
      }
    }
  }

  /** Dropping the lines equal to a mark changes the text exactly when it has one. */
  lemma DropLinesExactly(s: string, mark: string)
    requires mark != "" && '\n' !in mark
    ensures DropLines(s, mark) == s <==> mark !in Lines(s)
  {
    JoinLines(s);
    var kept := Without(Lines(s), mark);
    if mark in Lines(s) {
      if kept == [] {
        assert DropLines(s, mark) == "" && Lines("") == [""];
      } else {
        WithoutKeepsLines(Lines(s), mark);
        LinesOfJoin(kept);
      }
    }
  }

  lemma {:induction false} WithoutKeepsLines(ls: seq<string>, mark: string)
    requires forall k :: 0 <= k < |ls| ==> '\n' !in ls[k]
    ensures forall k :: 0 <= k < |Without(ls, mark)| ==> '\n' !in Without(ls, mark)[k]
  {
    if ls != [] { WithoutKeepsLines(ls[1..], mark); }
  }

  lemma LinesAroundMark(a: string, b: string, mark: string)
    requires '\n' !in mark
    ensures Lines(a + "\n" + mark + "\n" + b) == Lines(a) + [mark] + Lines(b)
  {
    LinesAcrossBreak(a + "\n" + mark, b);
    LinesAcrossBreak(a, mark);
    LinesOfOne(mark);
  }

  lemma WithoutMarkBetween(la: seq<string>, lb: seq<string>, mark: string)
    ensures Without(la + [mark] + lb, mark) == Without(la + lb, mark)
  {
    WithoutConcat(la + [mark], lb, mark);
    WithoutConcat(la, [mark], mark);
    WithoutConcat(la, lb, mark);
    assert Without([mark], mark) == [];
  }

  /** Taking out one marked line beforehand makes no difference to the filter. */
  lemma DropOneMark(a: string, b: string, mark: string)
    requires '\n' !in mark
    ensures DropLines(a + "\n" + mark + "\n" + b, mark) == DropLines(a + "\n" + b, mark)
  {
    LinesAroundMark(a, b, mark);
    LinesAcrossBreak(a, b);
    WithoutMarkBetween(Lines(a), Lines(b), mark);
  }
}
