/**
 * The Python values the application puts in dicts, exception contexts and
 * response payloads, and the two dict operations it uses: lookup (`d.get(k)`,
 * `k in d`) and item assignment (`d[k] = v`).  A dict is an association list in
 * insertion order, as Python 3.7+ keeps it.
 */
module Json {
  import opened Wrappers

  datatype Json =
    | Null
    | Bool(b: bool)
    | Int(i: int)
    | Str(s: string)
    | List(items: seq<Json>)
    | Object(members: seq<(string, Json)>)

  /** A Python dict: key/value pairs in insertion order. */
  type Dict = seq<(string, Json)>

  /** `list(d.keys())`. */
  function Keys(d: Dict): (ks: seq<string>)
    ensures |ks| == |d|
    ensures forall i :: 0 <= i < |d| ==> ks[i] == d[i].0
  {
    if d == [] then [] else [d[0].0] + Keys(d[1..])
  }

  /** A well-formed dict never holds a key twice. */
  predicate UniqueKeys(d: Dict) {
    d == [] || (d[0].0 !in Keys(d[1..]) && UniqueKeys(d[1..]))
  }

  /** `d.get(k)`: the value stored under `k`, or None when `k` is not a key. */
  function Get(d: Dict, k: string): Option<Json> {
    if d == [] then None
    else if d[0].0 == k then Some(d[0].1)
    else Get(d[1..], k)
  }

  /** Looking up a key in a dict whose first entry is `e`. */
  lemma GetCons(e: (string, Json), d: Dict, k: string)
    ensures Get([e] + d, k) == if e.0 == k then Some(e.1) else Get(d, k)
  {
    assert ([e] + d)[1..] == d;
  }

  /** An entry appended at the end changes no lookup of another key. */
  lemma {:induction false} GetAfter(d: Dict, e: (string, Json), k: string)
    requires k != e.0
    ensures Get(d + [e], k) == Get(d, k)
  {
    if d != [] {
      assert (d + [e])[1..] == d[1..] + [e];
      GetAfter(d[1..], e, k);
    }
  }

  /** Looking up a key in a two-entry dict display. */
  lemma GetPair(k1: string, v1: Json, k2: string, v2: Json)
    ensures forall k :: Get([(k1, v1), (k2, v2)], k)
                        == if k == k1 then Some(v1) else if k == k2 then Some(v2) else None
  {
    var d := [(k1, v1), (k2, v2)];
    var tail := [(k2, v2)];
    assert d[1..] == tail;
    assert tail[1..] == [];
    forall k ensures Get(d, k) == if k == k1 then Some(v1) else if k == k2 then Some(v2) else None {
      if k != k1 {
        assert Get(d, k) == Get(tail, k);
      }
    }
  }

  /** A lookup finds a value exactly for the keys of the dict, and that value is stored under the key. */
  lemma {:induction false} GetIsKey(d: Dict, k: string)
    ensures Get(d, k).Some? <==> k in Keys(d)
    ensures Get(d, k).Some? ==> (k, Get(d, k).value) in d
  {
    if d != [] && d[0].0 != k {
      GetIsKey(d[1..], k);
      assert Keys(d) == [d[0].0] + Keys(d[1..]);
    }
  }

  /** `k in d`. */
  predicate HasKey(d: Dict, k: string) {
    k in Keys(d)
  }

  /**
   * `d[k] = v`: an existing key keeps its position and takes the new value;
   * a new key is appended at the end.
   */
  function Insert(d: Dict, k: string, v: Json): (r: Dict)
    ensures Get(r, k) == Some(v)
    ensures forall k' :: k' != k ==> Get(r, k') == Get(d, k')
  {
    if d == [] then [(k, v)]
    else if d[0].0 == k then
      var r := [(k, v)] + d[1..];
      assert r[1..] == d[1..];
      r
    else
      var rest := Insert(d[1..], k, v);
      var r := [d[0]] + rest;
      assert r[1..] == rest;
      r
  }

  /** Item assignment keeps the order of the keys and appends a new one. */
  lemma {:induction false} InsertKeys(d: Dict, k: string, v: Json)
    ensures Keys(Insert(d, k, v)) == if k in Keys(d) then Keys(d) else Keys(d) + [k]
  {
    if d != [] {
      var r := Insert(d, k, v);
      assert Keys(d) == [d[0].0] + Keys(d[1..]);
      if d[0].0 == k {
        assert r[1..] == d[1..];
      } else {
        InsertKeys(d[1..], k, v);
        assert r[1..] == Insert(d[1..], k, v);
        assert Keys(r) == [d[0].0] + Keys(r[1..]);
      }
    }
  }

  /** Assigning a new key appends it. */
  lemma {:induction false} InsertNew(d: Dict, k: string, v: Json)
    requires k !in Keys(d)
    ensures Insert(d, k, v) == d + [(k, v)]
  {
    if d != [] {
      assert Keys(d) == [d[0].0] + Keys(d[1..]);
      InsertNew(d[1..], k, v);
      assert [d[0]] + (d[1..] + [(k, v)]) == d + [(k, v)];
    }
  }

  /** `if present: d[k] = v` for a key not yet in the dict appends the entry or leaves the dict. */
  lemma InsertWhen(d: Dict, k: string, v: Json, present: bool)
    requires k !in Keys(d)
    ensures (if present then Insert(d, k, v) else d) == d + (if present then [(k, v)] else [])
  {
    if present {
      InsertNew(d, k, v);
    }
  }

  /** The keys of two dicts laid end to end. */
  lemma KeysConcat(a: Dict, b: Dict)
    ensures Keys(a + b) == Keys(a) + Keys(b)
  {
    assert forall i :: 0 <= i < |a + b| ==> Keys(a + b)[i] == (Keys(a) + Keys(b))[i];
  }

  /** Assigning an existing key replaces its value where it stands. */
  lemma InsertReplace(pre: Dict, post: Dict, k: string, w: Json, v: Json)
    requires k !in Keys(pre)
    ensures Insert(pre + [(k, w)] + post, k, v) == pre + [(k, v)] + post
  {
    var d := pre + [(k, w)] + post;
    forall j | 0 <= j < |pre| ensures d[j].0 != k {
      assert Keys(pre)[j] == d[j].0;
    }
    InsertAt(d, |pre|, v);
    assert d[|pre| := (k, v)] == pre + [(k, v)] + post;
  }

  /** Assigning the key of the entry at `i`, when no earlier entry has it, updates that entry. */
  lemma {:induction false} InsertAt(d: Dict, i: nat, v: Json)
    requires i < |d| && forall j :: 0 <= j < i ==> d[j].0 != d[i].0
    ensures Insert(d, d[i].0, v) == d[i := (d[i].0, v)]
  {
    var k := d[i].0;
    if i == 0 {
      assert Insert(d, k, v) == [(k, v)] + d[1..];
    } else {
      assert d[0].0 != k;
      InsertAt(d[1..], i - 1, v);
      assert Insert(d, k, v) == [d[0]] + Insert(d[1..], k, v);
      assert [d[0]] + d[1..][i - 1 := (k, v)] == d[i := (k, v)];
    }
  }

  /** Assigning a key twice leaves the second value, where the first assignment put the key. */
  lemma {:induction false} InsertTwice(d: Dict, k: string, v: Json, w: Json)
    ensures Insert(Insert(d, k, v), k, w) == Insert(d, k, w)
  {
    if d != [] && d[0].0 != k {
      var once := Insert(d, k, v);
      assert once == [d[0]] + Insert(d[1..], k, v);
      assert once[1..] == Insert(d[1..], k, v);
      InsertTwice(d[1..], k, v, w);
    } else if d != [] {
      var once := Insert(d, k, v);
      assert once[1..] == d[1..];
    }
  }

  /** Item assignment keeps a well-formed dict well-formed. */
  lemma {:induction false} InsertKeepsUniqueKeys(d: Dict, k: string, v: Json)
    requires UniqueKeys(d)
    ensures UniqueKeys(Insert(d, k, v))
  {
    if d != [] {
      var r := Insert(d, k, v);
      if d[0].0 == k {
        assert r[1..] == d[1..];
      } else {
        InsertKeepsUniqueKeys(d[1..], k, v);
        InsertKeys(d[1..], k, v);
        assert r[1..] == Insert(d[1..], k, v);
      }
    }
  }

  /** Python truthiness, as tested by `if value:`. */
  predicate Truthy(j: Json) {
    match j
    case Null => false
    case Bool(b) => b
    case Int(i) => i != 0
    case Str(s) => s != ""
    case List(items) => items != []
    case Object(members) => members != []
  }
}
