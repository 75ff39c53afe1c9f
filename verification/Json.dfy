/** JSON values with objects as ordered lists of fields, the way JavaScript keeps insertion order. */
module Json {
  import opened Prelude

  datatype Scalar = Null | Boolean(b: bool) | Number(n: real) | Text(s: string)

  datatype Json =
    | Obj(fields: seq<Field>)
    | Arr(items: seq<Json>)
    | Leaf(scalar: Scalar)

  datatype Field = Field(key: string, value: Json)

  function Get(fs: seq<Field>, key: string): Option<Json>
  {
    if fs == [] then None else if fs[0].key == key then Some(fs[0].value) else Get(fs[1..], key)
  }

  /** result[key] = value: in place if the key is there, at the end if not. */
  function Put(fs: seq<Field>, key: string, value: Json): seq<Field>
  {
    if fs == [] then [Field(key, value)]
    else if fs[0].key == key then [Field(key, value)] + fs[1..]
    else [fs[0]] + Put(fs[1..], key, value)
  }

  function KeysOf(fs: seq<Field>): (r: seq<string>)
    ensures |r| == |fs| && forall i :: 0 <= i < |fs| ==> r[i] == fs[i].key
  {
    seq(|fs|, i requires 0 <= i < |fs| => fs[i].key)
  }

  predicate DistinctKeys(fs: seq<Field>)
  {
    forall i, j :: 0 <= i < j < |fs| ==> fs[i].key != fs[j].key
  }

  lemma {:induction false} GetFinds(fs: seq<Field>, key: string)
    ensures Get(fs, key).Some? <==> key in KeysOf(fs)
    ensures Get(fs, key).Some? ==> exists i :: 0 <= i < |fs| && fs[i] == Field(key, Get(fs, key).value)
  {
    if fs != [] {
      GetFinds(fs[1..], key);
      if fs[0].key == key {
        assert KeysOf(fs)[0] == key;
      } else {
        if key in KeysOf(fs) {
          var i :| 0 <= i < |fs| && KeysOf(fs)[i] == key;
          assert KeysOf(fs[1..])[i - 1] == key;
        }
        if Get(fs[1..], key).Some? {
          var i :| 0 <= i < |fs[1..]| && fs[1..][i] == Field(key, Get(fs, key).value);
          assert fs[i + 1] == Field(key, Get(fs, key).value) && KeysOf(fs)[i + 1] == key;
        }
      }
    }
  }

  lemma {:induction false} GetAt(fs: seq<Field>, i: nat)
    requires DistinctKeys(fs) && i < |fs|
    ensures Get(fs, fs[i].key) == Some(fs[i].value)
  {
    if i > 0 { GetAt(fs[1..], i - 1); }
  }

  lemma {:induction false} PutGet(fs: seq<Field>, key: string, value: Json, k: string)
    ensures Get(Put(fs, key, value), k) == if k == key then Some(value) else Get(fs, k)
  {
    if fs == [] {
      assert [Field(key, value)][1..] == [];
    } else if fs[0].key == key {
      assert ([Field(key, value)] + fs[1..])[1..] == fs[1..];
    } else {
      PutGet(fs[1..], key, value, k);
      assert ([fs[0]] + Put(fs[1..], key, value))[1..] == Put(fs[1..], key, value);
    }
  }

  lemma {:induction false} PutNew(fs: seq<Field>, key: string, value: Json)
    requires forall i :: 0 <= i < |fs| ==> fs[i].key != key
    ensures Put(fs, key, value) == fs + [Field(key, value)]
  {
    if fs != [] { PutNew(fs[1..], key, value); }
  }

  lemma {:induction false} PutOld(fs: seq<Field>, key: string, value: Json, m: nat)
    requires m < |fs| && fs[m].key == key
    ensures |Put(fs, key, value)| == |fs|
    ensures forall i :: 0 <= i < |fs| ==> Put(fs, key, value)[i].key == fs[i].key
  {
    if fs[0].key != key { PutOld(fs[1..], key, value, m - 1); }
  }

  lemma PutFacts(fs: seq<Field>, key: string, value: Json)
    requires DistinctKeys(fs)
    ensures DistinctKeys(Put(fs, key, value))
    ensures KeysOf(Put(fs, key, value)) == if key in KeysOf(fs) then KeysOf(fs) else KeysOf(fs) + [key]
    ensures forall k :: Get(Put(fs, key, value), k) == if k == key then Some(value) else Get(fs, k)
  {
    forall k ensures Get(Put(fs, key, value), k) == if k == key then Some(value) else Get(fs, k) {
      PutGet(fs, key, value, k);
    }
    if key in KeysOf(fs) {
      var m :| 0 <= m < |fs| && KeysOf(fs)[m] == key;
      PutOld(fs, key, value, m);
    } else {
      forall i | 0 <= i < |fs| ensures fs[i].key != key {
        assert KeysOf(fs)[i] in KeysOf(fs);
      }
      PutNew(fs, key, value);
    }
  }

  /** Two lists of fields with the same keys in the same order and the same values are the same. */
  lemma SameFields(a: seq<Field>, b: seq<Field>)
    requires DistinctKeys(a) && DistinctKeys(b) && KeysOf(a) == KeysOf(b)
    requires forall k <- KeysOf(a) :: Get(a, k) == Get(b, k)
    ensures a == b
  {
    forall i | 0 <= i < |a| ensures a[i] == b[i] {
      GetAt(a, i);
      GetAt(b, i);
      assert a[i].key == KeysOf(a)[i] == KeysOf(b)[i] == b[i].key;
      assert KeysOf(a)[i] in KeysOf(a);
    }
  }

  /** Keys are distinct in every object of the value, as in every JavaScript object. */
  predicate WellFormed(v: Json)
  {
    match v
    case Obj(fs) => DistinctKeys(fs) && forall i :: 0 <= i < |fs| ==> WellFormed(fs[i].value)
    case Arr(items) => forall i :: 0 <= i < |items| ==> WellFormed(items[i])
    case Leaf(_) => true
  }
}
