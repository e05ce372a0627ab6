/** `transformValue` of scripts/generate-pseudoloc.ts, and the one key that breaks its shape. */
module PseudolocJson {
  import opened Pseudoloc

  /** A parsed JSON value; an object's entries stand in the order `Object.entries` gives them. */
  datatype Json =
    | JNull
    | JBool(b: bool)
    | JNumber(n: real)
    | JString(s: string)
    | JArray(items: seq<Json>)
    | JObject(entries: seq<Entry>)

  datatype Entry = Entry(key: string, value: Json)

  const PROTO := "__proto__"

  /** Setting an entry under any key but `__proto__` is read back and leaves every other key alone. */
  lemma AssignedIs(entries: seq<Entry>, key: string, v: Json)
    ensures key == "__proto__" ==> Assign(entries, key, v) == entries
    ensures key != "__proto__" ==> Entry(key, v) in Assign(entries, key, v)
    ensures forall e :: e in entries && e.key != key ==> e in Assign(entries, key, v)
  {
    if key != PROTO {
      var k := if HasKey(entries, key) then KeyIndex(entries, key) else |entries|;
      assert Assign(entries, key, v)[k] == Entry(key, v);
      forall e | e in entries && e.key != key ensures e in Assign(entries, key, v) {
        var j :| 0 <= j < |entries| && entries[j] == e;
        assert Assign(entries, key, v)[j] == e;
      }
    }
  }

  predicate HasKey(entries: seq<Entry>, key: string) {
    exists k :: 0 <= k < |entries| && entries[k].key == key
  }

  /** Where a key stands among the entries. */
  function KeyIndex(entries: seq<Entry>, key: string): (k: nat)
    requires HasKey(entries, key)
    ensures k < |entries| && entries[k].key == key
  {
    if entries[0].key == key then 0
    else
      assert exists k :: 0 < k < |entries| && entries[k].key == key;
      assert HasKey(entries[1..], key) by {
        var k :| 0 < k < |entries| && entries[k].key == key;
        assert entries[1..][k - 1].key == key;
      }
      1 + KeyIndex(entries[1..], key)
  }

  /**
   * `out[k] = v` on an object literal: a new own entry, or a new value for one there already. The
   * key `__proto__` reaches the setter of `Object.prototype` and makes no own entry.
   */
  function Assign(entries: seq<Entry>, key: string, v: Json): seq<Entry> {
    if key == PROTO then entries
    else if HasKey(entries, key) then entries[KeyIndex(entries, key) := Entry(key, v)]
    else entries + [Entry(key, v)]
  }

  function TransformValue(v: Json): Json
    decreases v
  {
    match v
    case JString(s) => JString(TransformString(s))
    case JArray(items) => JArray(TransformItems(items))
    case JObject(entries) => JObject(TransformEntries([], entries))
    case _ => v
  }

  function TransformItems(items: seq<Json>): (r: seq<Json>)
    ensures |r| == |items|
    decreases items
  {
    if items == [] then [] else [TransformValue(items[0])] + TransformItems(items[1..])
  }

  /** The loop over the entries, from an `out` on. */
  function TransformEntries(out: seq<Entry>, entries: seq<Entry>): seq<Entry>
    decreases entries
  {
    if entries == [] then out
    else
      var e := entries[0];
      assert e.value < e;
      TransformEntries(Assign(out, e.key, TransformValue(e.value)), entries[1..])
  }

  method Transform(v: Json) returns (w: Json)
    ensures w == TransformValue(v)
    decreases v
  {
    match v
    case JString(s) => w := JString(TransformString(s));
    case JArray(items) =>
      var mapped := [];
      for k := 0 to |items|
        invariant TransformItems(items) == mapped + TransformItems(items[k..])
      {
        var item := Transform(items[k]);
        assert items[k..][1..] == items[k + 1..];
        mapped := mapped + [item];
      }
      w := JArray(mapped);
    case JObject(entries) =>
      var out := [];
      for k := 0 to |entries|
        invariant TransformEntries([], entries) == TransformEntries(out, entries[k..])
      {
        var e := entries[k];
        var value := Transform(e.value);
        assert entries[k..][1..] == entries[k + 1..];
        out := Assign(out, e.key, value);
      }
      w := JObject(out);
    case _ => w := v;
  }

  // ----- shape -----

  /** The same value but for the text of its strings. */
  predicate SameShape(v: Json, w: Json)
    decreases v
  {
    match v
    case JString(_) => w.JString?
    case JArray(items) =>
      w.JArray? && |w.items| == |items| && forall k :: 0 <= k < |items| ==> SameShape(items[k], w.items[k])
    case JObject(entries) =>
      w.JObject? && |w.entries| == |entries| &&
      forall k :: 0 <= k < |entries| ==>
        w.entries[k].key == entries[k].key && SameShape(entries[k].value, w.entries[k].value)
    case _ => w == v
  }

  /** Every string of the result is the transform of the string at the same place. */
  predicate StringsTransformed(v: Json, w: Json)
    decreases v
  {
    match v
    case JString(s) => w == JString(TransformString(s))
    case JArray(items) =>
      w.JArray? && |w.items| == |items| && forall k :: 0 <= k < |items| ==> StringsTransformed(items[k], w.items[k])
    case JObject(entries) =>
      w.JObject? && |w.entries| == |entries| &&
      forall k :: 0 <= k < |entries| ==> StringsTransformed(entries[k].value, w.entries[k].value)
    case _ => true
  }

  /** What `JSON.parse` guarantees: no object holds a key twice. */
  predicate IsParsed(v: Json)
    decreases v
  {
    match v
    case JArray(items) => forall k :: 0 <= k < |items| ==> IsParsed(items[k])
    case JObject(entries) =>
      AreDistinct(entries) && forall k :: 0 <= k < |entries| ==> IsParsed(entries[k].value)
    case _ => true
  }

  predicate MentionsProto(v: Json)
    decreases v
  {
    match v
    case JArray(items) => exists k :: 0 <= k < |items| && MentionsProto(items[k])
    case JObject(entries) =>
      exists k :: 0 <= k < |entries| && (entries[k].key == PROTO || MentionsProto(entries[k].value))
    case _ => false
  }

  lemma {:induction false} ItemsAt(items: seq<Json>, k: nat)
    requires k < |items|
    ensures TransformItems(items)[k] == TransformValue(items[k])
  {
    if k > 0 { ItemsAt(items[1..], k - 1); }
  }

  /** No more entries come out than go in, and fewer when the setter swallows one. */
  lemma {:induction false} EntriesCount(out: seq<Entry>, entries: seq<Entry>)
    ensures |TransformEntries(out, entries)| <= |out| + |entries|
    ensures HasKey(entries, PROTO) ==> |TransformEntries(out, entries)| < |out| + |entries|
    decreases |entries|
  {
    if entries != [] {
      var e := entries[0];
      EntriesCount(Assign(out, e.key, TransformValue(e.value)), entries[1..]);
      if HasKey(entries, PROTO) && e.key != PROTO {
        var k :| 0 <= k < |entries| && entries[k].key == PROTO;
        assert entries[1..][k - 1].key == PROTO;
      }
    }
  }

  predicate AreDistinct(entries: seq<Entry>) {
    forall j, k :: 0 <= j < k < |entries| ==> entries[j].key != entries[k].key
  }

  predicate AreApart(out: seq<Entry>, entries: seq<Entry>) {
    forall j, k :: 0 <= j < |out| && 0 <= k < |entries| ==> out[j].key != entries[k].key
  }

  lemma FirstIsAppended(out: seq<Entry>, entries: seq<Entry>, v: Json)
    requires entries != [] && AreApart(out, entries) && AreDistinct(entries) && !HasKey(entries, PROTO)
    ensures var next := out + [Entry(entries[0].key, v)];
            && Assign(out, entries[0].key, v) == next && AreApart(next, entries[1..])
            && AreDistinct(entries[1..]) && !HasKey(entries[1..], PROTO)
  {
    assert entries[0].key != PROTO;
    assert !HasKey(out, entries[0].key);
  }

  function Transformed(e: Entry): Entry { Entry(e.key, TransformValue(e.value)) }

  /** Every entry but the one under `__proto__`, with its key and its value transformed. */
  function Becomes(entries: seq<Entry>): seq<Entry>
    decreases entries
  {
    if entries == [] then []
    else (if entries[0].key == PROTO then [] else [Transformed(entries[0])]) + Becomes(entries[1..])
  }

  lemma EntriesStep(out: seq<Entry>, entries: seq<Entry>)
    ensures entries == [] ==> TransformEntries(out, entries) == out && Becomes(entries) == []
    ensures entries != [] ==>
              && TransformEntries(out, entries)
              == TransformEntries(Assign(out, entries[0].key, Transformed(entries[0]).value), entries[1..])
              && Becomes(entries)
              == if entries[0].key == PROTO then Becomes(entries[1..])
                 else [Transformed(entries[0])] + Becomes(entries[1..])
  {
    hide TransformValue;
  }

  /** What becomes of an object with distinct keys, `__proto__` among them or not. */
  lemma {:induction false} EntriesBecome(out: seq<Entry>, entries: seq<Entry>)
    requires AreApart(out, entries) && AreDistinct(entries)
    ensures TransformEntries(out, entries) == out + Becomes(entries)
    decreases |entries|
  {
    hide TransformValue, TransformEntries, Becomes, AreApart, AreDistinct, HasKey;
    EntriesStep(out, entries);
    if entries == [] {
      assert out + [] == out;
    } else {
      var first := Transformed(entries[0]);
      KeysStayApart(out, entries, first.value);
      if entries[0].key == PROTO {
        EntriesBecome(out, entries[1..]);
      } else {
        EntriesBecome(out + [first], entries[1..]);
        assert out + ([first] + Becomes(entries[1..])) == out + [first] + Becomes(entries[1..]);
      }
    }
  }

  lemma KeysStayApart(out: seq<Entry>, entries: seq<Entry>, v: Json)
    requires entries != [] && AreApart(out, entries) && AreDistinct(entries)
    ensures AreDistinct(entries[1..]) && AreApart(out, entries[1..])
    ensures entries[0].key == PROTO ==> Assign(out, entries[0].key, v) == out
    ensures entries[0].key != PROTO ==>
              var next := out + [Entry(entries[0].key, v)];
              Assign(out, entries[0].key, v) == next && AreApart(next, entries[1..])
  {
    assert !HasKey(out, entries[0].key);
  }

  /** With distinct ordinary keys, each entry comes out in its place. */
  lemma {:induction false} EntriesInPlace(out: seq<Entry>, entries: seq<Entry>)
    requires AreApart(out, entries) && AreDistinct(entries) && !HasKey(entries, PROTO)
    ensures TransformEntries(out, entries)
         == out + seq(|entries|, k requires 0 <= k < |entries| => Transformed(entries[k]))
    decreases |entries|
  {
    hide TransformValue;
    var all := seq(|entries|, k requires 0 <= k < |entries| => Transformed(entries[k]));
    if entries == [] {
      assert out + all == out;
    } else {
      var first := Transformed(entries[0]);
      FirstIsAppended(out, entries, first.value);
      hide AreApart, AreDistinct, HasKey;
      EntriesInPlace(out + [first], entries[1..]);
      var rest := seq(|entries[1..]|, k requires 0 <= k < |entries[1..]| => Transformed(entries[1..][k]));
      assert all == [first] + rest;
      assert out + ([first] + rest) == out + [first] + rest;
    }
  }

  /**
   * The transform keeps the whole JSON shape and every leaf that is no string exactly when no
   * object holds the key `__proto__`; and then every string is the transform of its original.
   */
  lemma {:induction false} ShapeKeptExactly(v: Json)
    requires IsParsed(v)
    ensures SameShape(v, TransformValue(v)) <==> !MentionsProto(v)
    ensures !MentionsProto(v) ==> StringsTransformed(v, TransformValue(v))
    decreases v
  {
    match v
    case JArray(items) =>
      forall k | 0 <= k < |items|
        ensures TransformItems(items)[k] == TransformValue(items[k])
        ensures SameShape(items[k], TransformValue(items[k])) <==> !MentionsProto(items[k])
        ensures !MentionsProto(items[k]) ==> StringsTransformed(items[k], TransformValue(items[k]))
      {
        ItemsAt(items, k);
        ShapeKeptExactly(items[k]);
      }
    case JObject(entries) =>
      if HasKey(entries, PROTO) {
        EntriesCount([], entries);
      } else {
        EntriesInPlace([], entries);
        forall k | 0 <= k < |entries|
          ensures TransformEntries([], entries)[k] == Entry(entries[k].key, TransformValue(entries[k].value))
          ensures SameShape(entries[k].value, TransformValue(entries[k].value)) <==> !MentionsProto(entries[k].value)
          ensures !MentionsProto(entries[k].value)
                  ==> StringsTransformed(entries[k].value, TransformValue(entries[k].value))
        {
          assert entries[k].value < entries[k];
          ShapeKeptExactly(entries[k].value);
        }
      }
    case _ =>
  }
}
