/** Renaming the keys of nested JSON objects between snake_case and camelCase. */
module CaseKeys {
  import opened Prelude
  import opened Json

  predicate IsUpper(c: char) { 'A' <= c <= 'Z' }

  predicate IsLower(c: char) { 'a' <= c <= 'z' }

  function ToLower(c: char): char
    requires IsUpper(c)
  {
    (c as int - 'A' as int + 'a' as int) as char
  }

  function ToUpper(c: char): char
    requires IsLower(c)
  {
    (c as int - 'a' as int + 'A' as int) as char
  }

  /** Each capital becomes an underscore and its small letter. */
  function CamelToSnake(s: string): string
  {
    if s == [] then []
    else if IsUpper(s[0]) then ['_', ToLower(s[0])] + CamelToSnake(s[1..])
    else [s[0]] + CamelToSnake(s[1..])
  }

  /** From the left, each underscore followed by a small letter becomes the capital. */
  function SnakeToCamel(s: string): string
  {
    if s == [] then []
    else if |s| >= 2 && s[0] == '_' && IsLower(s[1]) then [ToUpper(s[1])] + SnakeToCamel(s[2..])
    else [s[0]] + SnakeToCamel(s[1..])
  }

  /** Key names are rewritten character by character. */
  lemma {:induction false} SnakeJoins(a: string, b: string)
    ensures CamelToSnake(a + b) == CamelToSnake(a) + CamelToSnake(b)
  {
    if a == [] {
      assert a + b == b;
    } else {
      assert (a + b)[1..] == a[1..] + b;
      SnakeJoins(a[1..], b);
    }
  }

  /** A capital becomes an underscore and its small letter; any other character stays. */
  lemma SnakeOfOne(c: char)
    ensures var r := CamelToSnake([c]);
            if 'A' <= c <= 'Z' then |r| == 2 && r[0] == '_' && r[1] as int == c as int + 32 else r == [c]
  {
    assert [c][1..] == [];
  }

  /** From the left: underscore and small letter become the capital, anything else stays. */
  lemma CamelMeans(s: string)
    ensures |s| >= 2 && s[0] == '_' && 'a' <= s[1] <= 'z' ==>
              |SnakeToCamel(s)| > 0 && SnakeToCamel(s)[0] as int == s[1] as int - 32
              && SnakeToCamel(s)[1..] == SnakeToCamel(s[2..])
    ensures s != [] && !(|s| >= 2 && s[0] == '_' && 'a' <= s[1] <= 'z') ==>
              |SnakeToCamel(s)| > 0 && SnakeToCamel(s)[0] == s[0] && SnakeToCamel(s)[1..] == SnakeToCamel(s[1..])
    ensures SnakeToCamel("") == ""
  {
  }

  predicate NoCapitals(s: string)
  {
    forall i :: 0 <= i < |s| ==> !IsUpper(s[i])
  }

  /** No underscore stands before a small letter. */
  predicate NoSnakeHump(s: string)
  {
    forall i :: 0 <= i < |s| - 1 ==> !(s[i] == '_' && IsLower(s[i + 1]))
  }

  lemma CamelOfHump(c: char, t: string)
    requires IsUpper(c)
    ensures SnakeToCamel(['_', ToLower(c)] + t) == [c] + SnakeToCamel(t)
  {
  }

  lemma CamelOfOther(c: char, t: string)
    requires !(c == '_' && t != [] && IsLower(t[0]))
    ensures SnakeToCamel([c] + t) == [c] + SnakeToCamel(t)
  {
  }

  lemma {:induction false} CamelAfterSnake(s: string)
    requires NoSnakeHump(s)
    ensures SnakeToCamel(CamelToSnake(s)) == s
  {
    if s != [] {
      var rest := s[1..];
      assert forall i :: 0 <= i < |rest| ==> rest[i] == s[i + 1];
      CamelAfterSnake(rest);
      if IsUpper(s[0]) {
        CamelOfHump(s[0], CamelToSnake(rest));
      } else {
        assert rest != [] ==> CamelToSnake(rest)[0] == if IsUpper(rest[0]) then '_' else rest[0];
        CamelOfOther(s[0], CamelToSnake(rest));
      }
      assert s == [s[0]] + rest;
    }
  }

  lemma {:induction false} SnakeAfterCamel(s: string)
    requires NoCapitals(s)
    ensures CamelToSnake(SnakeToCamel(s)) == s
  {
    if s != [] {
      if |s| >= 2 && s[0] == '_' && IsLower(s[1]) {
        SnakeAfterCamel(s[2..]);
        var t := [ToUpper(s[1])] + SnakeToCamel(s[2..]);
        assert t[1..] == SnakeToCamel(s[2..]);
        assert s == [s[0], s[1]] + s[2..];
      } else {
        SnakeAfterCamel(s[1..]);
        var t := [s[0]] + SnakeToCamel(s[1..]);
        assert t[1..] == SnakeToCamel(s[1..]);
        assert s == [s[0]] + s[1..];
      }
    }
  }

  lemma {:induction false} SnakeHasNoCapitals(s: string)
    ensures NoCapitals(CamelToSnake(s))
  {
    if s != [] { SnakeHasNoCapitals(s[1..]); }
  }

  lemma {:induction false} CamelHasNoHump(s: string)
    ensures NoSnakeHump(SnakeToCamel(s))
    ensures s != [] && !(|s| >= 2 && s[0] == '_' && IsLower(s[1])) ==> SnakeToCamel(s)[0] == s[0]
    ensures s != [] && |s| >= 2 && s[0] == '_' && IsLower(s[1]) ==> IsUpper(SnakeToCamel(s)[0])
  {
    if s != [] {
      if |s| >= 2 && s[0] == '_' && IsLower(s[1]) {
        CamelHasNoHump(s[2..]);
      } else {
        CamelHasNoHump(s[1..]);
      }
    }
  }

  // ---------------------------------------------------------------- whole values

  type Rename = string -> string

  /** The entries a for-in loop visits: fields of an object, or an array's index keys. */
  function Size(v: Json): nat
  {
    match v case Obj(fs) => |fs| case Arr(items) => |items| case Leaf(_) => 0
  }

  function KeyAt(v: Json, i: nat): string
    requires i < Size(v)
  {
    match v case Obj(fs) => fs[i].key case Arr(_) => Decimal(i)
  }

  function ValueAt(v: Json, i: nat): (r: Json)
    requires i < Size(v)
    ensures r < v
  {
    match v
    case Obj(fs) => assert fs[i] < v; fs[i].value
    case Arr(items) => items[i]
  }

  /** The result object after the first n entries; a renamed key that is already there is overwritten. */
  function Renamed(v: Json, n: nat, f: Rename): seq<Field>
    requires n <= Size(v)
    decreases v, 0, n
  {
    if n == 0 then []
    else Put(Renamed(v, n - 1, f), f(KeyAt(v, n - 1)), RenamedValue(ValueAt(v, n - 1), f))
  }

  /** A value under a key. */
  function RenamedValue(v: Json, f: Rename): Json
    decreases v, 2
  {
    match v
    case Obj(_) => Obj(Renamed(v, Size(v), f))
    case Arr(items) => Arr(RenamedItems(v, |items|, f))
    case Leaf(_) => v
  }

  function RenamedItems(v: Json, n: nat, f: Rename): (r: seq<Json>)
    requires v.Arr? && n <= |v.items|
    ensures |r| == n
    ensures forall i :: 0 <= i < n ==> r[i] == RenamedItem(v.items[i], f)
    decreases v, 1, n
  {
    if n == 0 then [] else RenamedItems(v, n - 1, f) + [RenamedItem(v.items[n - 1], f)]
  }

  /** An item of an array: an array in an array counts as an object here, with its indexes as keys. */
  function RenamedItem(v: Json, f: Rename): Json
    decreases v, 2
  {
    if v.Leaf? then v else Obj(Renamed(v, Size(v), f))
  }

  /** The result has exactly the renamed keys; where two keys are renamed alike the later value stands. */
  lemma {:induction false} LastOneWins(v: Json, n: nat, f: Rename, k: string)
    requires n <= Size(v)
    ensures Get(Renamed(v, n, f), k).Some? <==> exists i :: 0 <= i < n && f(KeyAt(v, i)) == k
    ensures forall i :: 0 <= i < n && f(KeyAt(v, i)) == k && (forall j :: i < j < n ==> f(KeyAt(v, j)) != k) ==>
              Get(Renamed(v, n, f), k) == Some(RenamedValue(ValueAt(v, i), f))
    decreases n
  {
    if n > 0 {
      LastOneWins(v, n - 1, f, k);
      PutGet(Renamed(v, n - 1, f), f(KeyAt(v, n - 1)), RenamedValue(ValueAt(v, n - 1), f), k);
    }
  }

  function KeysRenamed(v: Json, f: Rename): seq<Field>
  {
    Renamed(v, Size(v), f)
  }

  /** The loop both converters run, with the renaming of a single key as parameter. */
  method RenameKeys(obj: Json, f: Rename) returns (result: seq<Field>)
    ensures result == KeysRenamed(obj, f)
    decreases obj, 1
  {
    result := [];
    var i := 0;
    while i < Size(obj)
      invariant 0 <= i <= Size(obj)
      invariant result == Renamed(obj, i, f)
    {
      var newKey := f(KeyAt(obj, i));
      var value := ValueAt(obj, i);
      if value.Obj? {
        var nested := RenameKeys(value, f);
        result := Put(result, newKey, Obj(nested));
      } else if value.Arr? {
        var items := RenameItems(value, f);
        result := Put(result, newKey, Arr(items));
      } else {
        result := Put(result, newKey, value);
      }
      i := i + 1;
    }
  }

  /** The mapping over an array's items inside the loop. */
  method RenameItems(value: Json, f: Rename) returns (items: seq<Json>)
    requires value.Arr?
    ensures items == RenamedItems(value, |value.items|, f)
    decreases value, 0
  {
    items := [];
    var j := 0;
    while j < |value.items|
      invariant 0 <= j <= |value.items|
      invariant items == RenamedItems(value, j, f)
    {
      var item := value.items[j];
      if !item.Leaf? {
        var nested := RenameKeys(item, f);
        items := items + [Obj(nested)];
      } else {
        items := items + [item];
      }
      j := j + 1;
    }
  }

  method KeysToCamel(obj: Json) returns (result: seq<Field>)
    ensures result == KeysRenamed(obj, SnakeToCamel)
  {
    result := RenameKeys(obj, SnakeToCamel);
  }

  method KeysToSnake(obj: Json) returns (result: seq<Field>)
    ensures result == KeysRenamed(obj, CamelToSnake)
  {
    result := RenameKeys(obj, CamelToSnake);
  }

  // ---------------------------------------------------------------- round trips

  /** Every key at every depth passes the test, and no array lies directly in an array. */
  predicate Tidy(v: Json, good: string -> bool)
  {
    match v
    case Obj(fs) => forall i :: 0 <= i < |fs| ==> good(fs[i].key) && Tidy(fs[i].value, good)
    case Arr(items) => forall i :: 0 <= i < |items| ==> !items[i].Arr? && Tidy(items[i], good)
    case Leaf(_) => true
  }

  /** The first n fields, each renamed where it stands; values are the renamed values. */
  predicate Placed(out: seq<Field>, fs: seq<Field>, n: nat, f: Rename, values: seq<Json>)
  {
    && n <= |fs| == |values| && |out| == n
    && forall i :: 0 <= i < n ==> out[i] == Field(f(fs[i].key), values[i])
  }

  lemma PlacedOneMore(out: seq<Field>, fs: seq<Field>, n: nat, f: Rename, values: seq<Json>)
    requires Placed(out, fs, n, f, values) && n < |fs|
    requires forall i, j :: 0 <= i < j < |fs| ==> f(fs[i].key) != f(fs[j].key)
    ensures Placed(Put(out, f(fs[n].key), values[n]), fs, n + 1, f, values)
  {
    forall i | 0 <= i < |out| ensures out[i].key != f(fs[n].key) { }
    PutNew(out, f(fs[n].key), values[n]);
  }

  lemma {:induction false} RenamedPlaced(v: Json, n: nat, f: Rename, values: seq<Json>)
    requires v.Obj? && n <= |v.fields| == |values|
    requires forall i :: 0 <= i < |values| ==> values[i] == RenamedValue(v.fields[i].value, f)
    requires forall i, j :: 0 <= i < j < |v.fields| ==> f(v.fields[i].key) != f(v.fields[j].key)
    ensures Placed(Renamed(v, n, f), v.fields, n, f, values)
  {
    if n > 0 {
      RenamedPlaced(v, n - 1, f, values);
      PlacedOneMore(Renamed(v, n - 1, f), v.fields, n - 1, f, values);
    }
  }

  /** Without collisions the loop just renames each field where it stands. */
  lemma RenamedInPlace(v: Json, n: nat, f: Rename)
    requires v.Obj? && n <= |v.fields|
    requires forall i, j :: 0 <= i < j < |v.fields| ==> f(v.fields[i].key) != f(v.fields[j].key)
    ensures |Renamed(v, n, f)| == n
    ensures forall i :: 0 <= i < n ==>
              Renamed(v, n, f)[i] == Field(f(v.fields[i].key), RenamedValue(v.fields[i].value, f))
  {
    var values := seq(|v.fields|, i requires 0 <= i < |v.fields| => RenamedValue(v.fields[i].value, f));
    RenamedPlaced(v, n, f, values);
  }

  /** g undoes f on good keys, and g only makes good keys. */
  ghost predicate Undoes(g: Rename, f: Rename, good: string -> bool)
  {
    && (forall k :: good(k) ==> g(f(k)) == k)
    && (forall k :: good(g(k)))
  }

  /** Renaming there and back is the identity on tidy values. */
  lemma {:induction false} ThereAndBack(v: Json, f: Rename, g: Rename, good: string -> bool)
    requires WellFormed(v) && Tidy(v, good) && Undoes(g, f, good)
    ensures v.Obj? ==> Renamed(Obj(Renamed(v, Size(v), f)), |Renamed(v, Size(v), f)|, g) == v.fields
    ensures RenamedValue(RenamedValue(v, f), g) == v
    decreases v
  {
    match v
    case Leaf(_) =>
    case Obj(fs) =>
      forall i, j | 0 <= i < j < |fs| ensures f(fs[i].key) != f(fs[j].key) {
        assert g(f(fs[i].key)) == fs[i].key && g(f(fs[j].key)) == fs[j].key;
      }
      RenamedInPlace(v, |fs|, f);
      var there := Obj(Renamed(v, |fs|, f));
      forall i | 0 <= i < |fs| ensures g(there.fields[i].key) == fs[i].key { }
      RenamedInPlace(there, |fs|, g);
      forall i | 0 <= i < |fs| ensures Renamed(there, |fs|, g)[i] == fs[i] {
        assert fs[i] < v;
        ThereAndBack(fs[i].value, f, g, good);
      }
      assert Renamed(there, |fs|, g) == fs;
    case Arr(items) =>
      var there := RenamedValue(v, f);
      forall i | 0 <= i < |items| ensures RenamedItem(RenamedItem(items[i], f), g) == items[i] {
        ThereAndBack(items[i], f, g, good);
      }
      assert RenamedItems(there, |items|, g) == items;
  }

  /** If renaming there and back gives the value again, the value was tidy. */
  lemma {:induction false} BackMeansTidy(v: Json, f: Rename, g: Rename, good: string -> bool)
    requires WellFormed(v) && Undoes(g, f, good) && RenamedValue(RenamedValue(v, f), g) == v
    ensures Tidy(v, good)
    decreases v
  {
    match v
    case Leaf(_) =>
    case Obj(fs) =>
      var there := Obj(Renamed(v, |fs|, f));
      RenamedKeys(there, Size(there), g);
      forall i | 0 <= i < |fs| ensures good(fs[i].key) {
        assert fs[i] in Renamed(there, Size(there), g);
      }
      forall i, j | 0 <= i < j < |fs| ensures f(fs[i].key) != f(fs[j].key) {
        assert g(f(fs[i].key)) == fs[i].key && g(f(fs[j].key)) == fs[j].key;
      }
      RenamedInPlace(v, |fs|, f);
      forall i | 0 <= i < |fs| ensures g(there.fields[i].key) == fs[i].key { }
      RenamedInPlace(there, |fs|, g);
      forall i | 0 <= i < |fs| ensures Tidy(fs[i].value, good) {
        assert fs[i] < v;
        assert Renamed(there, |fs|, g)[i] == fs[i];
        BackMeansTidy(fs[i].value, f, g, good);
      }
    case Arr(items) =>
      var there := RenamedValue(v, f);
      forall i | 0 <= i < |items| ensures !items[i].Arr? && Tidy(items[i], good) {
        assert RenamedItems(there, |items|, g)[i] == RenamedItem(RenamedItem(items[i], f), g) == items[i];
        BackMeansTidy(items[i], f, g, good);
      }
  }

  lemma {:induction false} RenamedKeys(v: Json, n: nat, g: Rename)
    requires n <= Size(v)
    ensures forall x <- Renamed(v, n, g) :: exists k :: x.key == g(k)
  {
    if n > 0 {
      RenamedKeys(v, n - 1, g);
      PutKeys(Renamed(v, n - 1, g), g(KeyAt(v, n - 1)), RenamedValue(ValueAt(v, n - 1), g));
    }
  }

  lemma {:induction false} PutKeys(fs: seq<Field>, key: string, value: Json)
    ensures forall x <- Put(fs, key, value) :: x.key == key || exists y <- fs :: y.key == x.key
  {
    if fs != [] { PutKeys(fs[1..], key, value); }
  }

  lemma CamelUndoesSnake()
    ensures Undoes(SnakeToCamel, CamelToSnake, NoSnakeHump)
  {
    forall k ensures NoSnakeHump(k) ==> SnakeToCamel(CamelToSnake(k)) == k {
      if NoSnakeHump(k) { CamelAfterSnake(k); }
    }
    forall k ensures NoSnakeHump(SnakeToCamel(k)) { CamelHasNoHump(k); }
  }

  lemma SnakeUndoesCamel()
    ensures Undoes(CamelToSnake, SnakeToCamel, NoCapitals)
  {
    forall k ensures NoCapitals(k) ==> CamelToSnake(SnakeToCamel(k)) == k {
      if NoCapitals(k) { SnakeAfterCamel(k); }
    }
    forall k ensures NoCapitals(CamelToSnake(k)) { SnakeHasNoCapitals(k); }
  }

  /** keysToCamel undoes keysToSnake exactly on objects without a snake hump in a key or an array in an array. */
  lemma CamelUndoesSnakeExactly(obj: Json)
    requires obj.Obj? && WellFormed(obj)
    ensures KeysRenamed(Obj(KeysRenamed(obj, CamelToSnake)), SnakeToCamel) == obj.fields <==> Tidy(obj, NoSnakeHump)
  {
    CamelUndoesSnake();
    if Tidy(obj, NoSnakeHump) {
      ThereAndBack(obj, CamelToSnake, SnakeToCamel, NoSnakeHump);
    } else if KeysRenamed(Obj(KeysRenamed(obj, CamelToSnake)), SnakeToCamel) == obj.fields {
      BackMeansTidy(obj, CamelToSnake, SnakeToCamel, NoSnakeHump);
    }
  }

  /** keysToSnake undoes keysToCamel exactly on objects without a capital in a key or an array in an array. */
  lemma SnakeUndoesCamelExactly(obj: Json)
    requires obj.Obj? && WellFormed(obj)
    ensures KeysRenamed(Obj(KeysRenamed(obj, SnakeToCamel)), CamelToSnake) == obj.fields <==> Tidy(obj, NoCapitals)
  {
    SnakeUndoesCamel();
    if Tidy(obj, NoCapitals) {
      ThereAndBack(obj, SnakeToCamel, CamelToSnake, NoCapitals);
    } else if KeysRenamed(Obj(KeysRenamed(obj, SnakeToCamel)), CamelToSnake) == obj.fields {
      BackMeansTidy(obj, SnakeToCamel, CamelToSnake, NoCapitals);
    }
  }

  // ---------------------------------------------------------------- where the round trips fail

  lemma HumpAndCapital()
    ensures CamelToSnake("a_b") == "a_b" && SnakeToCamel("a_b") == "aB"
    ensures SnakeToCamel("aB") == "aB" && CamelToSnake("aB") == "a_b"
  {
    assert "a_b"[1..] == "_b" && "_b"[1..] == "b" && "b"[1..] == "" && "_b"[2..] == "";
    assert "aB"[1..] == "B" && "B"[1..] == "";
  }

  lemma OneKey(key: string, value: Json, f: Rename)
    ensures KeysRenamed(Obj([Field(key, value)]), f) == [Field(f(key), RenamedValue(value, f))]
  {
    var obj := Obj([Field(key, value)]);
    assert Renamed(obj, 0, f) == [];
    assert ValueAt(obj, 0) == value;
  }

  /** The key a_b comes back from keysToSnake and keysToCamel as aB, the key aB the other way round as a_b. */
  lemma RoundTripsCanRename()
    ensures KeysRenamed(Obj(KeysRenamed(Obj([Field("a_b", Leaf(Null))]), CamelToSnake)), SnakeToCamel)
         == [Field("aB", Leaf(Null))]
    ensures KeysRenamed(Obj(KeysRenamed(Obj([Field("aB", Leaf(Null))]), SnakeToCamel)), CamelToSnake)
         == [Field("a_b", Leaf(Null))]
  {
    HumpAndCapital();
    OneKey("a_b", Leaf(Null), CamelToSnake);
    OneKey("a_b", Leaf(Null), SnakeToCamel);
    OneKey("aB", Leaf(Null), SnakeToCamel);
    OneKey("aB", Leaf(Null), CamelToSnake);
  }

  lemma ArrayInArray(f: Rename, g: Rename)
    ensures RenamedValue(RenamedValue(Arr([Arr([])]), f), g) == Arr([Obj([])])
  {
    var v := Arr([Arr([])]);
    assert RenamedItem(Arr([]), f) == Obj([]);
    assert RenamedItems(v, 1, f) == [Obj([])];
    assert RenamedItem(Obj([]), g) == Obj([]);
    assert RenamedItems(Arr([Obj([])]), 1, g) == [Obj([])];
  }

  /** An empty array in an array comes back from either round trip as an empty object, tidy keys or not. */
  lemma RoundTripsCanLoseArrays(key: string, f: Rename, g: Rename)
    ensures KeysRenamed(Obj(KeysRenamed(Obj([Field(key, Arr([Arr([])]))]), f)), g) == [Field(g(f(key)), Arr([Obj([])]))]
  {
    OneKey(key, Arr([Arr([])]), f);
    OneKey(f(key), RenamedValue(Arr([Arr([])]), f), g);
    ArrayInArray(f, g);
  }
}
