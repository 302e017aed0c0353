/**
 * A `defaultdict(list)` from section headers to their lines, kept in the
 * order the keys were first inserted (Python dictionaries iterate in
 * insertion order). A key is inserted by its first append, or by reading it
 * while absent, which inserts an empty list.
 */
module Sections {
  import opened Wrappers
  import opened Collections

  datatype Section = Section(header: string, body: seq<string>)

  type Store = seq<Section>

  /** A reading loop's state: the header of the section being read, if any, and the sections so far. */
  datatype Grouping = Grouping(curr: Option<string>, store: Store)

  function Headers(store: Store): (r: seq<string>)
    ensures |r| == |store| && forall i :: 0 <= i < |store| ==> r[i] == store[i].header
  {
    seq(|store|, i requires 0 <= i < |store| => store[i].header)
  }

  /** No header is stored twice, as in a dictionary. */
  predicate Unique(store: Store) {
    Distinct(Headers(store))
  }

  /** The position of `key`, when it is stored. */
  function Find(store: Store, key: string): (r: int)
    ensures -1 <= r < |store|
    ensures r >= 0 ==> store[r].header == key
    ensures r < 0 <==> forall i :: 0 <= i < |store| ==> store[i].header != key
  {
    if store == [] then -1
    else
      var r := Find(store[..|store| - 1], key);
      if r >= 0 then r else if store[|store| - 1].header == key then |store| - 1 else -1
  }

  /** `store[key]` read without inserting: the key's lines, none when it is absent. */
  function Get(store: Store, key: string): seq<string> {
    var i := Find(store, key);
    if i >= 0 then store[i].body else []
  }

  /** `store[key].append(line)`: a key seen for the first time becomes the last section. */
  function Append(store: Store, key: string, line: string): (r: Store)
    ensures Unique(store) ==> Unique(r)
    ensures Headers(r) == if Find(store, key) >= 0 then Headers(store) else Headers(store) + [key]
  {
    var i := Find(store, key);
    if i >= 0 then
      var r := store[i := Section(key, store[i].body + [line])];
      assert Headers(r) == Headers(store);
      r
    else
      var r := store + [Section(key, [line])];
      assert Headers(r) == Headers(store) + [key];
      r
  }

  /** Reading `store[key]` on a defaultdict: an absent key is inserted with no lines. */
  function Touch(store: Store, key: string): (r: Store)
    ensures Unique(store) ==> Unique(r)
    ensures Headers(r) == if Find(store, key) >= 0 then Headers(store) else Headers(store) + [key]
    ensures forall k :: Get(r, k) == Get(store, k)
  {
    if Find(store, key) >= 0 then store
    else
      var r := store + [Section(key, [])];
      assert Headers(r) == Headers(store) + [key];
      assert r[..|r| - 1] == store;
      r
  }

  /** `store[key][i] = line`, for a line the key has. */
  function SetLine(store: Store, key: string, i: nat, line: string): (r: Store)
    requires i < |Get(store, key)|
    ensures Unique(store) ==> Unique(r)
    ensures Headers(r) == Headers(store)
  {
    var k := Find(store, key);
    var r := store[k := Section(key, store[k].body[i := line])];
    assert Headers(r) == Headers(store);
    r
  }

  /** Appending adds the line at the end of its key's lines and leaves every other key's lines alone. */
  lemma GetAppend(store: Store, key: string, line: string, other: string)
    requires Unique(store)
    ensures Get(Append(store, key, line), key) == Get(store, key) + [line]
    ensures other != key ==> Get(Append(store, key, line), other) == Get(store, other)
  {
    var r := Append(store, key, line);
    var i := Find(store, key);
    FindUnique(r, key);
    FindUnique(store, other);
    FindUnique(r, other);
    if i >= 0 {
      assert r[i].header == key;
    } else {
      assert r[|store|].header == key;
    }
    if other != key {
      var j := Find(store, other);
      if j >= 0 {
        assert r[j] == store[j];
      } else {
        forall k | 0 <= k < |r| ensures r[k].header != other {
          assert Headers(r)[k] == r[k].header;
          if k < |store| {
            assert Headers(store)[k] == store[k].header;
          }
        }
      }
    }
  }

  /** Setting a line changes that line of that key and nothing else. */
  lemma GetSetLine(store: Store, key: string, i: nat, line: string, other: string)
    requires Unique(store) && i < |Get(store, key)|
    ensures Get(SetLine(store, key, i, line), key) == Get(store, key)[i := line]
    ensures other != key ==> Get(SetLine(store, key, i, line), other) == Get(store, other)
  {
    var r := SetLine(store, key, i, line);
    FindUnique(r, key);
    FindUnique(r, other);
    FindUnique(store, other);
  }

  /** Setting a line, stated for every key at once. */
  lemma GetSetLineAll(store: Store, key: string, i: nat, line: string)
    requires Unique(store) && i < |Get(store, key)|
    ensures forall k :: Get(SetLine(store, key, i, line), k) == if k == key then Get(store, k)[i := line] else Get(store, k)
  {
    forall k ensures Get(SetLine(store, key, i, line), k) == if k == key then Get(store, k)[i := line] else Get(store, k) {
      GetSetLine(store, key, i, line, k);
    }
  }

  /** In a store without repeated headers, a key is found exactly where it sits. */
  lemma FindUnique(store: Store, key: string)
    requires Unique(store)
    ensures forall i :: 0 <= i < |store| && store[i].header == key ==> Find(store, key) == i
  {
    forall i | 0 <= i < |store| && store[i].header == key ensures Find(store, key) == i {
      var j := Find(store, key);
      assert Headers(store)[i] == key == Headers(store)[j];
    }
  }
}
