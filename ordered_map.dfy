/**
 * OrderedMap of pycommons/collections/maps/ordered.py: a map over an insertion-ordered
 * dict, and its `__str__`, which walks the entries and renders them as
 * `{k1: v1, k2: v2}`. Python's `repr` of keys and values is a parameter of the rendering.
 */
module OrderedMaps {
  import opened Base
  import opened IterableMaps

  /** `sep.join(parts)`. */
  function Join(parts: seq<string>, sep: string): string {
    if |parts| == 0 then ""
    else if |parts| == 1 then parts[0]
    else Join(parts[..|parts| - 1], sep) + sep + parts[|parts| - 1]
  }

  /** One entry as `__str__` renders it: `repr(key): repr(value)`. */
  function EntryText<K, V>(k: K, v: V, keyRepr: K -> string, valueRepr: V -> string): string {
    keyRepr(k) + ": " + valueRepr(v)
  }

  /** The rendered entries, in key order. */
  function EntryTexts<K, V>(t: Table<K, V>, keyRepr: K -> string, valueRepr: V -> string): (parts: seq<string>)
    requires TableValid(t)
    ensures |parts| == |t.keys|
    ensures forall i :: 0 <= i < |t.keys| ==>
      parts[i] == EntryText(t.keys[i], t.entries[t.keys[i]], keyRepr, valueRepr)
  {
    seq(|t.keys|, i requires 0 <= i < |t.keys| => EntryText(t.keys[i], t.entries[t.keys[i]], keyRepr, valueRepr))
  }

  /** The text `__str__` returns for a map holding `t`. */
  function Render<K, V>(t: Table<K, V>, keyRepr: K -> string, valueRepr: V -> string): string
    requires TableValid(t)
  {
    "{" + Join(EntryTexts(t, keyRepr, valueRepr), ", ") + "}"
  }

  /** An empty map renders as `{}`. */
  lemma RenderEmpty<K, V>(t: Table<K, V>, keyRepr: K -> string, valueRepr: V -> string)
    requires TableValid(t) && t.keys == []
    ensures Render(t, keyRepr, valueRepr) == "{}"
  {
    assert EntryTexts(t, keyRepr, valueRepr) == [];
  }

  /** Joining one more part puts the separator and the part at the end. */
  lemma JoinAppend(parts: seq<string>, sep: string, last: string)
    requires parts != []
    ensures Join(parts + [last], sep) == Join(parts, sep) + sep + last
  {
    assert (parts + [last])[..|parts|] == parts;
  }

  /** Storing a new key adds its rendered entry after the others. */
  lemma EntryTextsAppend<K, V>(t: Table<K, V>, k: K, v: V, keyRepr: K -> string, valueRepr: V -> string)
    requires TableValid(t) && k !in t.entries
    ensures TableValid(Put(t, k, v))
    ensures EntryTexts(Put(t, k, v), keyRepr, valueRepr) ==
      EntryTexts(t, keyRepr, valueRepr) + [EntryText(k, v, keyRepr, valueRepr)]
  {
    PutSpec(t, k, v);
    var t' := Put(t, k, v);
    var before := EntryTexts(t, keyRepr, valueRepr);
    var after := EntryTexts(t', keyRepr, valueRepr);
    forall i | 0 <= i < |before| ensures after[i] == before[i] {
      assert t'.keys[i] == t.keys[i] && t.keys[i] in t.entries;
    }
    assert t'.keys[|before|] == k;
  }

  /**
   * Storing a new key in a non-empty map adds its entry at the end of the rendering, just
   * before the closing brace; the entries already there are rendered as before.
   */
  lemma RenderNewKey<K, V>(t: Table<K, V>, k: K, v: V, keyRepr: K -> string, valueRepr: V -> string)
    requires TableValid(t) && k !in t.entries && t.keys != []
    ensures TableValid(Put(t, k, v))
    ensures Render(Put(t, k, v), keyRepr, valueRepr) ==
      "{" + Join(EntryTexts(t, keyRepr, valueRepr), ", ") + ", " + EntryText(k, v, keyRepr, valueRepr) + "}"
  {
    EntryTextsAppend(t, k, v, keyRepr, valueRepr);
    JoinAppend(EntryTexts(t, keyRepr, valueRepr), ", ", EntryText(k, v, keyRepr, valueRepr));
  }

  /** A map holding a single entry renders as `{k: v}`. */
  lemma RenderSingle<K, V>(k: K, v: V, keyRepr: K -> string, valueRepr: V -> string)
    ensures TableValid(Put(EmptyTable(), k, v))
    ensures Render(Put(EmptyTable(), k, v), keyRepr, valueRepr) == "{" + EntryText(k, v, keyRepr, valueRepr) + "}"
  {
    PutSpec(EmptyTable<K, V>(), k, v);
    assert EntryTexts(Put(EmptyTable(), k, v), keyRepr, valueRepr) == [EntryText(k, v, keyRepr, valueRepr)];
  }

  /**
   * Two entries stored one after the other render in that order, separated by ", ":
   * with `repr` quoting strings, `{'testKey1': 'testValue1', 'testKey2': 'testValue2'}`.
   */
  lemma RenderTwo<K, V>(k1: K, v1: V, k2: K, v2: V, keyRepr: K -> string, valueRepr: V -> string)
    requires k1 != k2
    ensures TableValid(Put(Put(EmptyTable(), k1, v1), k2, v2))
    ensures Render(Put(Put(EmptyTable(), k1, v1), k2, v2), keyRepr, valueRepr) ==
      "{" + EntryText(k1, v1, keyRepr, valueRepr) + ", " + EntryText(k2, v2, keyRepr, valueRepr) + "}"
  {
    var t := Put(EmptyTable(), k1, v1);
    RenderSingle(k1, v1, keyRepr, valueRepr);
    RenderNewKey(t, k2, v2, keyRepr, valueRepr);
    assert EntryTexts(t, keyRepr, valueRepr) == [EntryText(k1, v1, keyRepr, valueRepr)];
  }

  class OrderedMap<K(==), V> {
    const data: Dict<K, V>

    /** OrderedMap(): an empty insertion-ordered map; it takes no initial entries. */
    constructor ()
      ensures fresh(data) && data.Valid() && data.Contents() == EmptyTable()
    {
      data := new Dict();
    }

    /**
     * __str__: steps an items iterator over the dict until StopIteration, rendering each
     * entry, and wraps the joined parts in braces. Nothing it can see is changed.
     */
    method Str(keyRepr: K -> string, valueRepr: V -> string) returns (s: string)
      requires data.Valid()
      ensures s == Render(data.Contents(), keyRepr, valueRepr)
    {
      var items := new ItemsIterator(data);
      var parts: seq<string> := [];
      while true
        invariant fresh(items) && items.dict == data
        invariant |parts| <= |data.keys|
        invariant items.state == IterState(|data.keys|, |parts|, false)
        invariant parts == EntryTexts(data.Contents(), keyRepr, valueRepr)[..|parts|]
        decreases |data.keys| - |parts|
      {
        var step := items.Next();
        if step.Failure? {
          break;
        }
        parts := parts + [EntryText(step.value.0, step.value.1, keyRepr, valueRepr)];
      }
      assert parts == EntryTexts(data.Contents(), keyRepr, valueRepr);
      s := "{" + Join(parts, ", ") + "}";
    }
  }
}
