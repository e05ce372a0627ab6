/** Migration 097: free-text tags on notes turned into links to the governed tags, and back. */
module NoteTags {
  import opened Options

  datatype NoteId = NoteId(uuid: int)

  datatype TagId = TagId(uuid: int)

  /** One note's `text[]`; an element may be NULL. */
  type Texts = seq<Option<string>>

  const MAX_NAME := 100

  // ----- normal forms -----

  function TrimStart(s: string): (t: string)
    ensures |t| <= |s| && (t != "" ==> t[0] != ' ')
    ensures t != "" ==> t[|t| - 1] == s[|s| - 1]
    ensures s == "" || s[0] != ' ' ==> t == s
  {
    if s != "" && s[0] == ' ' then TrimStart(s[1..]) else s
  }

  function TrimEnd(s: string): (t: string)
    ensures |t| <= |s| && (t != "" ==> t[|t| - 1] != ' ')
    ensures t != "" ==> t[0] == s[0]
    ensures s == "" || s[|s| - 1] != ' ' ==> t == s
  {
    if s != "" && s[|s| - 1] == ' ' then TrimEnd(s[..|s| - 1]) else s
  }

  /** `trim(s)`: spaces off both ends, and no other character. */
  function Trim(s: string): string { TrimEnd(TrimStart(s)) }

  /** `lower(s)`: letter by letter, as the database's collation has it. */
  function Lower(fold: char -> char, s: string): string { seq(|s|, k requires 0 <= k < |s| => fold(s[k])) }

  /** Folding twice is folding once, and it neither makes nor loses a space. */
  ghost predicate IsFold(fold: char -> char) {
    forall c :: fold(fold(c)) == fold(c) && (fold(c) == ' ' <==> c == ' ')
  }

  function Norm(fold: char -> char, s: string): string { Lower(fold, Trim(s)) }

  predicate IsNormal(fold: char -> char, s: string) { s != "" && Norm(fold, s) == s }

  lemma TrimmedEnds(s: string)
    ensures var t := Trim(s); t != "" ==> t[0] != ' ' && t[|t| - 1] != ' '
    ensures |Trim(s)| <= |s|
  {
  }

  lemma NormIsNormal(fold: char -> char, s: string)
    requires IsFold(fold) && Trim(s) != ""
    ensures IsNormal(fold, Norm(fold, s)) && Trim(Norm(fold, s)) != "" && |Norm(fold, s)| <= |s|
  {
    var t := Trim(s);
    var n := Norm(fold, s);
    TrimmedEnds(s);
    assert n[0] == fold(t[0]) && n[|n| - 1] == fold(t[|t| - 1]);
    assert Trim(n) == n;
    assert forall k :: 0 <= k < |t| ==> fold(n[k]) == n[k];
  }

  function Blanks(n: nat): string { seq(n, _ => ' ') }

  /** Text with no space at either end, among as many spaces as there may be. */
  predicate IsCore(core: string) { core != "" ==> core[0] != ' ' && core[|core| - 1] != ' ' }

  lemma {:induction false} TrimStartIs(n: nat, t: string)
    requires t == "" || t[0] != ' '
    ensures TrimStart(Blanks(n) + t) == t
  {
    if n > 0 {
      assert (Blanks(n) + t)[1..] == Blanks(n - 1) + t;
      TrimStartIs(n - 1, t);
    } else {
      assert Blanks(0) + t == t;
    }
  }

  lemma {:induction false} TrimEndIs(t: string, n: nat)
    requires t == "" || t[|t| - 1] != ' '
    ensures TrimEnd(t + Blanks(n)) == t
  {
    var s := t + Blanks(n);
    if n > 0 {
      assert s[..|s| - 1] == t + Blanks(n - 1);
      TrimEndIs(t, n - 1);
    } else {
      assert s == t;
    }
  }

  /** The normal form: the spaces around a text are gone, and each of its letters is folded. */
  lemma NormExactly(fold: char -> char, a: nat, core: string, b: nat)
    requires IsCore(core)
    ensures Trim(Blanks(a) + core + Blanks(b)) == core
    ensures var n := Norm(fold, Blanks(a) + core + Blanks(b));
            |n| == |core| && forall k :: 0 <= k < |core| ==> n[k] == fold(core[k])
  {
    if core == "" {
      assert Blanks(a) + core + Blanks(b) == Blanks(a + b) + "";
      TrimStartIs(a + b, "");
    } else {
      assert Blanks(a) + core + Blanks(b) == Blanks(a) + (core + Blanks(b));
      TrimStartIs(a, core + Blanks(b));
      TrimEndIs(core, b);
    }
  }

  // ----- what the two directions do -----

  /** The names a note's texts stand for. */
  function Names(fold: char -> char, texts: Texts): set<string> {
    set k | 0 <= k < |texts| && texts[k].Some? && Trim(texts[k].value) != "" :: Norm(fold, texts[k].value)
  }

  function AllNames(fold: char -> char, column: map<NoteId, Texts>): set<string> {
    set n, name | n in column && name in Names(fold, column[n]) :: name
  }

  predicate FitsColumn(names: set<string>) { forall name :: name in names ==> |name| <= MAX_NAME }

  /** Tag names are unique and fit their column. */
  predicate AreTags(tags: map<TagId, string>) { HasUniqueNames(tags) && FitsColumn(tags.Values) }

  predicate AreLinks(notes: set<NoteId>, tags: map<TagId, string>, links: set<(NoteId, TagId)>) {
    forall l :: l in links ==> l.0 in notes && l.1 in tags
  }

  predicate HasUniqueNames(tags: map<TagId, string>) {
    forall t, u :: t in tags && u in tags && tags[t] == tags[u] ==> t == u
  }

  /** No tag lost or renamed, and one tag more for each name that had none. */
  ghost predicate Extends(tags: map<TagId, string>, next: map<TagId, string>, names: set<string>) {
    && HasUniqueNames(next)
    && (forall t :: t in tags ==> t in next && next[t] == tags[t])
    && (forall t :: t in next && t !in tags ==> next[t] in names)
    && (forall name :: name in names ==> exists t :: t in next && next[t] == name)
  }

  /** Each note is linked to the tags bearing its names, and to no others. */
  ghost predicate LinksNames(fold: char -> char, column: map<NoteId, Texts>, tags: map<TagId, string>,
                             links: set<(NoteId, TagId)>)
  {
    forall n, t :: (n, t) in links <==> n in column && t in tags && tags[t] in Names(fold, column[n])
  }

  ghost predicate UpDid(fold: char -> char, column: map<NoteId, Texts>, tags: map<TagId, string>,
                        next: map<TagId, string>, links: set<(NoteId, TagId)>)
  {
    Extends(tags, next, AllNames(fold, column)) && LinksNames(fold, column, next, links)
  }

  /** A collation: which of two names comes first. */
  ghost predicate IsOrder(first: (string, string) -> bool) {
    && (forall a, b, c :: first(a, b) && first(b, c) ==> first(a, c))
    && (forall a :: !first(a, a))
    && (forall a, b :: a != b ==> first(a, b) || first(b, a))
  }

  predicate IsSorted(first: (string, string) -> bool, names: seq<string>) {
    forall i, j :: 0 <= i < j < |names| ==> first(names[i], names[j])
  }

  function LinkedNames(tags: map<TagId, string>, links: set<(NoteId, TagId)>, n: NoteId): set<string>
    requires forall l :: l in links ==> l.1 in tags
  {
    set l | l in links && l.0 == n :: tags[l.1]
  }

  function Elements(names: seq<string>): set<string> { set k | 0 <= k < |names| :: names[k] }

  function Given(names: seq<string>): Texts { seq(|names|, k requires 0 <= k < |names| => Some(names[k])) }

  /** A note's texts are the names of its tags, in order and each once. */
  ghost predicate ListsNames(first: (string, string) -> bool, tags: map<TagId, string>,
                             links: set<(NoteId, TagId)>, n: NoteId, texts: Texts)
    requires forall l :: l in links ==> l.1 in tags
  {
    exists names :: texts == Given(names) && IsSorted(first, names)
                    && Elements(names) == LinkedNames(tags, links, n)
  }

  ghost predicate DownDid(first: (string, string) -> bool, notes: set<NoteId>, tags: map<TagId, string>,
                          links: set<(NoteId, TagId)>, column: map<NoteId, Texts>)
    requires forall l :: l in links ==> l.1 in tags
  {
    column.Keys == notes && forall n :: n in notes ==> ListsNames(first, tags, links, n, column[n])
  }

  class Database {
    var notes: set<NoteId>
    /** `notes.tags`, while there is that column. */
    var column: map<NoteId, Texts>
    var tags: map<TagId, string>
    /** `note_tags`, while there is that table. */
    var links: set<(NoteId, TagId)>

    constructor (column: map<NoteId, Texts>, tags: map<TagId, string>)
      requires HasUniqueNames(tags)
      ensures this.notes == column.Keys && this.column == column && this.tags == tags && links == {}
    {
      this.notes, this.column, this.tags, links := column.Keys, column, tags, {};
    }

    ghost predicate HasColumn() reads this {
      column.Keys == notes && links == {} && AreTags(tags)
    }

    ghost predicate HasLinks() reads this {
      column == map[] && AreTags(tags) && AreLinks(notes, tags, links)
    }

    /** `INSERT INTO tags … ON CONFLICT (name) DO UPDATE SET updated_at`. */
    method UpsertTag(name: string, uuid: set<TagId> -> TagId)
      requires AreTags(tags) && |name| <= MAX_NAME && forall ids :: uuid(ids) !in ids
      modifies `tags
      ensures Extends(old(tags), tags, {name}) && AreTags(tags)
    {
      if t :| t in tags && tags[t] == name {
        return;
      } else {
        var id := uuid(tags.Keys);
        tags := tags[id := name];
        assert id in tags && tags[id] == name;
      }
    }

    method UpsertTags(names: set<string>, uuid: set<TagId> -> TagId)
      requires AreTags(tags) && FitsColumn(names) && forall ids :: uuid(ids) !in ids
      modifies `tags
      ensures Extends(old(tags), tags, names) && AreTags(tags)
    {
      hide HasUniqueNames;
      var todo := names;
      NothingAdded(tags);
      while todo != {}
        invariant todo <= names && AreTags(tags) && Extends(old(tags), tags, names - todo)
        decreases todo
      {
        var name :| name in todo;
        ghost var before := tags;
        UpsertTag(name, uuid);
        ExtendsMore(old(tags), before, tags, names - todo, name);
        todo := todo - {name};
        assert names - todo == names - (todo + {name}) + {name};
      }
      assert names - {} == names;
    }

    /** Fails, and changes nothing, exactly when some name is too long for its column. */
    method Up097(fold: char -> char, uuid: set<TagId> -> TagId) returns (ok: bool)
      requires HasColumn() && IsFold(fold) && forall ids :: uuid(ids) !in ids
      modifies this
      ensures ok <==> FitsColumn(AllNames(fold, old(column)))
      ensures !ok ==> notes == old(notes) && column == old(column) && tags == old(tags) && links == old(links)
      ensures ok ==> HasLinks() && notes == old(notes)
      ensures ok ==> UpDid(fold, old(column), old(tags), tags, links)
      ensures ok <==> forall n, k :: n in old(column) && 0 <= k < |old(column)[n]| && old(column)[n][k].Some? ==>
                |Trim(old(column)[n][k].value)| <= 100
    {
      FitsWhenTrimmed(fold, column);
      hide Names, IsFold, Extends, HasUniqueNames;
      var names := AllNames(fold, column);
      if exists name :: name in names && |name| > MAX_NAME { return false; }
      UpsertTags(names, uuid);
      links := set n, t | n in column && t in tags && tags[t] in Names(fold, column[n]) :: (n, t);
      column := map[];
      ok := true;
    }

    /** The note's tag names under `array_agg(t.name ORDER BY t.name)`. */
    method Aggregate(first: (string, string) -> bool, n: NoteId) returns (names: seq<string>)
      requires HasLinks() && IsOrder(first)
      ensures IsSorted(first, names)
      ensures Elements(names) == LinkedNames(tags, links, n)
    {
      names := [];
      var todo := LinkedNames(tags, links, n);
      while todo != {}
        invariant todo <= LinkedNames(tags, links, n)
        invariant IsSorted(first, names) && Elements(names) == LinkedNames(tags, links, n) - todo
        decreases todo
      {
        var name :| name in todo;
        var k := 0;
        while k < |names| && first(names[k], name)
          invariant 0 <= k <= |names|
          invariant forall i :: 0 <= i < k ==> first(names[i], name)
        {
          k := k + 1;
        }
        assert name !in Elements(names);
        InsertSorted(first, names, k, name);
        names := names[..k] + [name] + names[k..];
        todo := todo - {name};
      }
    }

    /** Re-adds the column, fills it from the links, drops the links. */
    method Down097(first: (string, string) -> bool)
      requires HasLinks() && IsOrder(first)
      modifies this
      ensures HasColumn() && notes == old(notes) && tags == old(tags)
      ensures DownDid(first, notes, tags, old(links), column)
    {
      var filled: map<NoteId, Texts> := map[];
      var todo := notes;
      while todo != {}
        invariant notes == old(notes) && tags == old(tags) && links == old(links) && column == map[]
        invariant todo <= notes && filled.Keys == notes - todo
        invariant forall n :: n in filled ==> ListsNames(first, tags, links, n, filled[n])
        decreases todo
      {
        var n :| n in todo;
        var names := Aggregate(first, n);
        filled := filled[n := Given(names)];
        todo := todo - {n};
      }
      column := filled;
      links := {};
    }
  }

  /** The names fit exactly when each trimmed text does. */
  lemma FitsWhenTrimmed(fold: char -> char, column: map<NoteId, Texts>)
    ensures FitsColumn(AllNames(fold, column)) <==>
            forall n, k :: n in column && 0 <= k < |column[n]| && column[n][k].Some? ==>
              |Trim(column[n][k].value)| <= 100
  {
    hide Trim;
    if FitsColumn(AllNames(fold, column)) {
      forall n, k | n in column && 0 <= k < |column[n]| && column[n][k].Some?
        ensures |Trim(column[n][k].value)| <= 100
      {
        var name := Norm(fold, column[n][k].value);
        if Trim(column[n][k].value) != "" {
          assert name in Names(fold, column[n]);
          assert name in AllNames(fold, column);
        }
      }
    }
  }

  lemma NothingAdded(tags: map<TagId, string>)
    requires AreTags(tags)
    ensures Extends(tags, tags, {})
  {
  }

  lemma ExtendsMore(a: map<TagId, string>, b: map<TagId, string>, c: map<TagId, string>, names: set<string>,
                    name: string)
    requires Extends(a, b, names) && Extends(b, c, {name})
    ensures Extends(a, c, names + {name})
  {
    forall other | other in names ensures exists t :: t in c && c[t] == other {
      var t :| t in b && b[t] == other;
      assert t in c && c[t] == other;
    }
  }

  lemma InsertSorted(first: (string, string) -> bool, names: seq<string>, k: nat, name: string)
    requires IsOrder(first) && IsSorted(first, names) && k <= |names| && name !in Elements(names)
    requires forall i :: 0 <= i < k ==> first(names[i], name)
    requires k < |names| ==> !first(names[k], name)
    ensures IsSorted(first, names[..k] + [name] + names[k..])
    ensures Elements(names[..k] + [name] + names[k..]) == Elements(names) + {name}
  {
    var next := names[..k] + [name] + names[k..];
    forall i, j | 0 <= i < j < |next| ensures first(next[i], next[j]) {
      if i == k && j > k {
        assert names[k] in Elements(names);
        assert first(name, names[k]);
        if j - 1 > k { assert first(names[k], names[j - 1]); }
      }
    }
    forall x ensures x in Elements(next) <==> x in Elements(names) + {name} {
      if x in Elements(names) {
        var i :| 0 <= i < |names| && names[i] == x;
        assert next[if i < k then i else i + 1] == x;
      }
      if x == name { assert next[k] == x; }
    }
  }

  // ----- what the pair of migrations keeps -----

  lemma NamesAreNormal(fold: char -> char, texts: Texts, name: string)
    requires IsFold(fold) && name in Names(fold, texts)
    ensures IsNormal(fold, name)
  {
    var k :| 0 <= k < |texts| && texts[k].Some? && Trim(texts[k].value) != "" && Norm(fold, texts[k].value) == name;
    NormIsNormal(fold, texts[k].value);
  }

  /** The names listed for a note read back as themselves when they are all normal. */
  lemma NamesOfGiven(fold: char -> char, names: seq<string>)
    requires IsFold(fold) && forall k :: 0 <= k < |names| ==> IsNormal(fold, names[k])
    ensures Names(fold, Given(names)) == Elements(names)
  {
    hide Norm;
    forall k | 0 <= k < |names| ensures Trim(names[k]) != "" { TrimOfNormal(fold, names[k]); }
    forall name ensures name in Names(fold, Given(names)) <==> name in Elements(names) {
      if name in Names(fold, Given(names)) {
        var k :| 0 <= k < |names| && Norm(fold, names[k]) == name;
        assert IsNormal(fold, names[k]);
        assert names[k] == name;
      }
      if name in Elements(names) {
        var k :| 0 <= k < |names| && names[k] == name;
        assert IsNormal(fold, names[k]) && Given(names)[k] == Some(name);
      }
    }
  }

  lemma TrimOfNormal(fold: char -> char, s: string)
    requires IsNormal(fold, s)
    ensures Trim(s) != ""
  {
    assert |Norm(fold, s)| == |Trim(s)|;
  }

  /** After `up` a note is linked to exactly the names its texts stood for. */
  lemma UpLinksExactlyTheNames(fold: char -> char, column: map<NoteId, Texts>, tags: map<TagId, string>,
                               next: map<TagId, string>, links: set<(NoteId, TagId)>, n: NoteId)
    requires UpDid(fold, column, tags, next, links) && n in column
    ensures AreLinks(column.Keys, next, links)
    ensures LinkedNames(next, links, n) == Names(fold, column[n])
  {
    hide Names;
    forall name | name in Names(fold, column[n]) ensures name in LinkedNames(next, links, n) {
      assert name in AllNames(fold, column);
      var t :| t in next && next[t] == name;
      assert (n, t) in links;
    }
  }

  /** There is one way to list a set of names in order. */
  lemma {:induction false} SortedListIsUnique(first: (string, string) -> bool, a: seq<string>, b: seq<string>)
    requires IsOrder(first) && IsSorted(first, a) && IsSorted(first, b) && Elements(a) == Elements(b)
    ensures a == b
  {
    if a == [] {
      FirstIsElement(b);
    } else {
      FirstIsElement(a);
      FirstIsElement(b);
      FirstIsLeast(first, a, b[0]);
      FirstIsLeast(first, b, a[0]);
      assert a[0] == b[0];
      RestElements(first, a);
      RestElements(first, b);
      SortedListIsUnique(first, a[1..], b[1..]);
      assert a == [a[0]] + a[1..] && b == [b[0]] + b[1..];
    }
  }

  lemma FirstIsElement(a: seq<string>)
    ensures a != [] ==> a[0] in Elements(a)
  {
  }

  lemma FirstIsLeast(first: (string, string) -> bool, a: seq<string>, name: string)
    requires IsSorted(first, a) && name in Elements(a)
    ensures name == a[0] || first(a[0], name)
  {
    var k :| 0 <= k < |a| && a[k] == name;
    if k > 0 { assert first(a[0], a[k]); }
  }

  lemma RestElements(first: (string, string) -> bool, a: seq<string>)
    requires IsOrder(first) && IsSorted(first, a) && a != []
    ensures IsSorted(first, a[1..]) && Elements(a[1..]) == Elements(a) - {a[0]}
  {
    forall name | name in Elements(a) - {a[0]} ensures name in Elements(a[1..]) {
      var k :| 0 <= k < |a| && a[k] == name;
      assert a[1..][k - 1] == name;
    }
    forall name | name in Elements(a[1..]) ensures name in Elements(a) - {a[0]} {
      var k :| 0 <= k < |a[1..]| && a[1..][k] == name;
      assert a[k + 1] == name && first(a[0], a[k + 1]);
    }
  }

  /** `up` then `down` leaves each note the one list, in order and each once, of its normalised names. */
  lemma DownAfterUpNormalises(fold: char -> char, first: (string, string) -> bool, column: map<NoteId, Texts>,
                              tags: map<TagId, string>, next: map<TagId, string>, links: set<(NoteId, TagId)>,
                              after: map<NoteId, Texts>, n: NoteId, names: seq<string>)
    requires IsOrder(first) && n in column
    requires UpDid(fold, column, tags, next, links) && AreLinks(column.Keys, next, links)
    requires DownDid(first, column.Keys, next, links, after)
    ensures after.Keys == column.Keys
    ensures after[n] == Given(names) <==> Elements(names) == Names(fold, column[n]) && IsSorted(first, names)
  {
    UpLinksExactlyTheNames(fold, column, tags, next, links, n);
    assert ListsNames(first, next, links, n, after[n]);
    var listed :| after[n] == Given(listed) && IsSorted(first, listed)
                  && Elements(listed) == LinkedNames(next, links, n);
    if Elements(names) == Names(fold, column[n]) && IsSorted(first, names) {
      SortedListIsUnique(first, listed, names);
    }
    if after[n] == Given(names) { GivenTells(listed, names); }
  }

  lemma GivenTells(a: seq<string>, b: seq<string>)
    requires Given(a) == Given(b)
    ensures a == b
  {
    forall k | 0 <= k < |a| ensures a[k] == b[k] { assert Given(a)[k] == Given(b)[k]; }
  }

  /** A name read from what `down` lists is the normal form of a linked tag's name. */
  lemma NamesAfterDown(fold: char -> char, first: (string, string) -> bool, tags: map<TagId, string>,
                       links: set<(NoteId, TagId)>, n: NoteId, texts: Texts, name: string)
    requires forall l :: l in links ==> l.1 in tags
    requires ListsNames(first, tags, links, n, texts) && name in Names(fold, texts)
    ensures exists t :: (n, t) in links && Norm(fold, tags[t]) == name
  {
    var names :| texts == Given(names) && Elements(names) == LinkedNames(tags, links, n);
    var k :| 0 <= k < |texts| && texts[k].Some? && Norm(fold, texts[k].value) == name;
    assert names[k] in Elements(names);
    var l :| l in links && l.0 == n && tags[l.1] == names[k];
    assert (n, l.1) in links;
  }

  /** Whatever tags the notes have been linked to meanwhile, `up` after `down` does not fail. */
  lemma UpAfterDownSucceeds(fold: char -> char, first: (string, string) -> bool, notes: set<NoteId>,
                            tags: map<TagId, string>, links: set<(NoteId, TagId)>, column: map<NoteId, Texts>)
    requires IsFold(fold) && AreTags(tags) && AreLinks(notes, tags, links)
    requires DownDid(first, notes, tags, links, column)
    ensures FitsColumn(AllNames(fold, column))
  {
    hide Names, Norm, IsFold;
    forall name | name in AllNames(fold, column) ensures |name| <= MAX_NAME {
      var n :| n in column && name in Names(fold, column[n]);
      NamesAfterDown(fold, first, tags, links, n, column[n], name);
      var t :| (n, t) in links && Norm(fold, tags[t]) == name;
      assert tags[t] in tags.Values;
      NormNoLonger(fold, tags[t]);
    }
  }

  lemma NormNoLonger(fold: char -> char, s: string)
    ensures |Norm(fold, s)| <= |s|
  {
    TrimmedEnds(s);
  }

  /** And it restores the links exactly when every linked tag's name is in normal form. */
  lemma UpAfterDownRestores(fold: char -> char, first: (string, string) -> bool, notes: set<NoteId>,
                            tags: map<TagId, string>, links: set<(NoteId, TagId)>, column: map<NoteId, Texts>,
                            next: map<TagId, string>, again: set<(NoteId, TagId)>)
    requires IsFold(fold) && AreTags(tags) && AreLinks(notes, tags, links)
    requires DownDid(first, notes, tags, links, column) && UpDid(fold, column, tags, next, again)
    ensures again == links <==> forall l :: l in links ==> IsNormal(fold, tags[l.1])
    ensures again == links ==> next == tags
  {
    if again == links {
      forall l | l in links ensures IsNormal(fold, tags[l.1]) {
        assert (l.0, l.1) in again;
        NamesAreNormal(fold, column[l.0], next[l.1]);
      }
    }
    if forall l :: l in links ==> IsNormal(fold, tags[l.1]) {
      forall n | n in notes ensures Names(fold, column[n]) == LinkedNames(tags, links, n) {
        ListedNormally(fold, first, tags, links, n, column[n]);
      }
      SameLinks(fold, notes, tags, links, column, next, again);
      SameTags(fold, notes, tags, links, column, next);
    }
  }

  lemma ListedNormally(fold: char -> char, first: (string, string) -> bool, tags: map<TagId, string>,
                       links: set<(NoteId, TagId)>, n: NoteId, texts: Texts)
    requires IsFold(fold) && forall l :: l in links ==> l.1 in tags && IsNormal(fold, tags[l.1])
    requires ListsNames(first, tags, links, n, texts)
    ensures Names(fold, texts) == LinkedNames(tags, links, n)
  {
    var names :| texts == Given(names) && Elements(names) == LinkedNames(tags, links, n);
    forall k | 0 <= k < |names| ensures IsNormal(fold, names[k]) {
      assert names[k] in Elements(names);
      var l :| l in links && l.0 == n && tags[l.1] == names[k];
    }
    NamesOfGiven(fold, names);
  }

  lemma SameLinks(fold: char -> char, notes: set<NoteId>, tags: map<TagId, string>, links: set<(NoteId, TagId)>,
                  column: map<NoteId, Texts>, next: map<TagId, string>, again: set<(NoteId, TagId)>)
    requires AreLinks(notes, tags, links) && column.Keys == notes && UpDid(fold, column, tags, next, again)
    requires forall n :: n in notes ==> Names(fold, column[n]) == LinkedNames(tags, links, n)
    ensures again == links
  {
    hide Names, AllNames;
    forall n, t ensures (n, t) in again <==> (n, t) in links {
      if (n, t) in links {
        assert tags[t] in LinkedNames(tags, links, n) by { assert (n, t).0 == n; }
      }
      if (n, t) in again {
        assert next[t] in LinkedNames(tags, links, n);
        var l :| l in links && l.0 == n && tags[l.1] == next[t];
        assert next[l.1] == next[t] && l == (n, l.1);
      }
    }
    forall l ensures l in again <==> l in links { assert l == (l.0, l.1); }
  }

  lemma SameTags(fold: char -> char, notes: set<NoteId>, tags: map<TagId, string>, links: set<(NoteId, TagId)>,
                 column: map<NoteId, Texts>, next: map<TagId, string>)
    requires AreLinks(notes, tags, links) && column.Keys == notes && Extends(tags, next, AllNames(fold, column))
    requires forall n :: n in notes ==> Names(fold, column[n]) == LinkedNames(tags, links, n)
    ensures next == tags
  {
    hide Names;
    forall t | t in next ensures t in tags {
      if next[t] in AllNames(fold, column) {
        var n :| n in column && next[t] in Names(fold, column[n]);
        var l :| l in links && l.0 == n && tags[l.1] == next[t];
        assert next[l.1] == next[t] && l.1 == t;
      }
    }
  }

  /** `up`, `down`, `up`: the same links to the same tags as the first time. */
  lemma UpDownUp(fold: char -> char, first: (string, string) -> bool, column: map<NoteId, Texts>,
                 tags: map<TagId, string>, next: map<TagId, string>, links: set<(NoteId, TagId)>,
                 after: map<NoteId, Texts>, last: map<TagId, string>, again: set<(NoteId, TagId)>)
    requires IsFold(fold) && AreTags(next)
    requires UpDid(fold, column, tags, next, links) && AreLinks(column.Keys, next, links)
    requires DownDid(first, column.Keys, next, links, after) && UpDid(fold, after, next, last, again)
    ensures again == links && last == next
  {
    forall l | l in links ensures IsNormal(fold, next[l.1]) {
      assert (l.0, l.1) in links;
      NamesAreNormal(fold, column[l.0], next[l.1]);
    }
    UpAfterDownRestores(fold, first, column.Keys, next, links, after, last, again);
  }
}
