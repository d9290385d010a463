/** json_value_compare and json_object_get_value: what the comparison decides, and where it is an equivalence. */
module Comparing {
  import opened Bytes
  import opened Values

  /** The C string at the start of a buffer: strcmp reads no further than its NUL. */
  function CString(s: bytes): bytes {
    if s == [] || s[0] == 0 then [] else [s[0]] + CString(s[1..])
  }

  lemma {:induction false} CStringNulFree(s: bytes)
    requires NulFree(s)
    ensures CString(s) == s
    decreases |s|
  {
    if s != [] {
      CStringNulFree(s[1..]);
    }
  }

  /** The numbers of json_type. */
  function Code(v: Value): (c: int)
    ensures 1 <= c <= 7
  {
    match v
    case Obj(_) => 1
    case Arr(_) => 2
    case Integer(_) => 3
    case Double(_) => 4
    case Str(_) => 5
    case Boolean(_) => 6
    case Null => 7
  }

  /** What json_type calls the kind of a value. */
  function TypeName(v: Value): string {
    match v
    case Null => "null"
    case Boolean(_) => "boolean"
    case Integer(_) => "integer"
    case Double(_) => "double"
    case Str(_) => "string"
    case Arr(_) => "array"
    case Obj(_) => "object"
  }

  /** Entry k is the first one with the name. */
  predicate FirstWith(entries: seq<Entry>, name: bytes, k: nat) {
    && k < |entries| && CString(entries[k].name) == name
    && forall j | 0 <= j < k :: CString(entries[j].name) != name
  }

  predicate NoneWith(entries: seq<Entry>, name: bytes) {
    forall j | 0 <= j < |entries| :: CString(entries[j].name) != name
  }

  /** The value of the first entry whose name is the given C string. */
  function Lookup(entries: seq<Entry>, name: bytes): (r: Option<Value>)
    ensures r.Some? ==> exists k: nat :: FirstWith(entries, name, k) && r.value == entries[k].value
    ensures r.None? ==> NoneWith(entries, name)
  {
    if entries == [] then None
    else if CString(entries[0].name) == name then
      assert FirstWith(entries, name, 0);
      Some(entries[0].value)
    else
      var rest := entries[1..];
      var r := Lookup(rest, name);
      assert forall j | 0 < j < |entries| :: entries[j] == rest[j - 1];
      assert forall k: nat :: FirstWith(rest, name, k) ==> FirstWith(entries, name, k + 1);
      r
  }

  /** json_object_get_value. */
  method ObjectGetValue(entries: seq<Entry>, name: bytes) returns (r: Option<Value>)
    ensures r == Lookup(entries, CString(name))
    ensures r.Some? ==> exists k: nat :: FirstWith(entries, CString(name), k) && r.value == entries[k].value
    ensures r.None? ==> NoneWith(entries, CString(name))
  {
    for i := 0 to |entries|
      invariant forall j | 0 <= j < i :: CString(entries[j].name) != CString(name)
    {
      if CString(entries[i].name) == CString(name) {
        assert FirstWith(entries, CString(name), i);
        LookupFirst(entries, CString(name), i);
        return Some(entries[i].value);
      }
    }
    assert NoneWith(entries, CString(name));
    return None;
  }

  lemma LookupFirst(entries: seq<Entry>, name: bytes, k: nat)
    requires FirstWith(entries, name, k)
    ensures Lookup(entries, name) == Some(entries[k].value)
  {
    assert CString(entries[k].name) == name;
    assert Lookup(entries, name).Some?;
    var n: nat :| FirstWith(entries, name, n) && Lookup(entries, name).value == entries[n].value;
    assert CString(entries[n].name) == name && n == k;
  }

  /** When the comparison finds no difference: only the keys of the first object are looked up, in the second. */
  predicate Similar(v: Value, w: Value)
    decreases v
  {
    match (v, w)
    case (Null, Null) => true
    case (Boolean(a), Boolean(b)) => a == b
    case (Integer(a), Integer(b)) => a == b
    case (Double(a), Double(b)) => a == b
    case (Str(a), Str(b)) => CString(a) == CString(b)
    case (Arr(a), Arr(b)) => |a| == |b| && forall i | 0 <= i < |a| :: Similar(a[i], b[i])
    case (Obj(a), Obj(b)) => |a| == |b| && forall i | 0 <= i < |a| :: SimilarEntry(a[i], b)
    case _ => false
  }

  predicate SimilarEntry(e: Entry, entries: seq<Entry>)
    decreases e
  {
    var r := Lookup(entries, CString(e.name));
    r.Some? && Similar(e.value, r.value)
  }

  /** json_value_compare: -1 for a null pointer, 0 when no difference is found, or else the type of the first value. */
  method ValueCompare(v: Option<Value>, w: Option<Value>) returns (r: int)
    ensures r == if v.None? || w.None? then -1 else if Similar(v.value, w.value) then 0 else Code(v.value)
    ensures r > 0 ==> v.Some? && TypeName(v.value) == ["object", "array", "integer", "double", "string", "boolean",
                                                       "null"][r - 1]
  {
    if v.None? || w.None? {
      return -1;
    }
    r := CompareValues(v.value, w.value);
  }

  method CompareValues(v: Value, w: Value) returns (r: int)
    ensures r == if Similar(v, w) then 0 else Code(v)
    decreases v
  {
    if Code(v) != Code(w) {
      return Code(v);
    }
    match v
    case Null => r := 0;
    case Boolean(b) => r := if b == w.b then 0 else 6;
    case Integer(i) => r := if i == w.i then 0 else 3;
    case Double(x) => r := if x == w.x then 0 else 4;
    case Str(s) => r := if CString(s) == CString(w.s) then 0 else 5;
    case Arr(items) =>
      if |items| != |w.items| {
        return 2;
      }
      for i := 0 to |items|
        invariant forall k | 0 <= k < i :: Similar(items[k], w.items[k])
      {
        var c := CompareValues(items[i], w.items[i]);
        if c != 0 {
          return 2;
        }
      }
      r := 0;
    case Obj(entries) =>
      if |entries| != |w.entries| {
        return 1;
      }
      for i := 0 to |entries|
        invariant forall k | 0 <= k < i :: SimilarEntry(entries[k], w.entries)
      {
        var found := ObjectGetValue(w.entries, entries[i].name);
        if found.None? {
          assert !SimilarEntry(entries[i], w.entries);
          return 1;
        }
        assert entries[i] < v;
        var c := CompareValues(entries[i].value, found.value);
        if c != 0 {
          assert !SimilarEntry(entries[i], w.entries);
          return 1;
        }
      }
      r := 0;
  }

  // The meaning of a value: objects as maps

  /** A value with its strings read as C strings and its objects as maps from names to values. */
  datatype Canon =
    | CNull
    | CBoolean(b: int)
    | CInteger(i: int)
    | CDouble(x: real)
    | CStr(s: bytes)
    | CArr(items: seq<Canon>)
    | CObj(entries: map<bytes, Canon>)

  function CanonOf(v: Value): Canon
    decreases v
  {
    match v
    case Null => CNull
    case Boolean(b) => CBoolean(b)
    case Integer(i) => CInteger(i)
    case Double(x) => CDouble(x)
    case Str(s) => CStr(CString(s))
    case Arr(items) => CArr(CanonItems(items))
    case Obj(entries) => CObj(CanonEntries(entries))
  }

  function CanonItems(items: seq<Value>): (r: seq<Canon>)
    ensures |r| == |items| && forall k | 0 <= k < |items| :: r[k] == CanonOf(items[k])
    decreases items
  {
    if items == [] then [] else [CanonOf(items[0])] + CanonItems(items[1..])
  }

  function CanonEntries(entries: seq<Entry>): map<bytes, Canon>
    decreases entries
  {
    if entries == [] then map[]
    else CanonEntries(entries[1..])[CString(entries[0].name) := CanonOf(entries[0].value)]
  }

  /** No object of the tree repeats a name. */
  predicate DistinctNames(v: Value) {
    match v
    case Arr(items) => forall k | 0 <= k < |items| :: DistinctNames(items[k])
    case Obj(entries) => Unrepeated(entries) && forall k | 0 <= k < |entries| :: DistinctNames(entries[k].value)
    case _ => true
  }

  predicate Unrepeated(entries: seq<Entry>) {
    forall j, k | 0 <= j < k < |entries| :: CString(entries[j].name) != CString(entries[k].name)
  }

  lemma {:induction false} CanonLookup(entries: seq<Entry>, name: bytes)
    ensures name in CanonEntries(entries) <==> Lookup(entries, name).Some?
    ensures name in CanonEntries(entries) ==> CanonEntries(entries)[name] == CanonOf(Lookup(entries, name).value)
    decreases |entries|
  {
    if entries != [] {
      CanonLookup(entries[1..], name);
    }
  }

  lemma {:induction false} LookupUnrepeated(entries: seq<Entry>, k: nat)
    requires Unrepeated(entries) && k < |entries|
    ensures Lookup(entries, CString(entries[k].name)) == Some(entries[k].value)
    decreases |entries|
  {
    if k > 0 {
      assert entries[1..][k - 1] == entries[k];
      assert forall i, j | 0 <= i < j < |entries[1..]| ::
        entries[1..][i] == entries[i + 1] && entries[1..][j] == entries[j + 1];
      LookupUnrepeated(entries[1..], k - 1);
    }
  }

  /** Distinct names make as many keys as there are entries. */
  lemma {:induction false} KeysCounted(entries: seq<Entry>)
    requires Unrepeated(entries)
    ensures |CanonEntries(entries).Keys| == |entries|
    decreases |entries|
  {
    if entries != [] {
      var rest := entries[1..];
      assert forall i, j | 0 <= i < j < |rest| :: rest[i] == entries[i + 1] && rest[j] == entries[j + 1];
      KeysCounted(rest);
      var name := CString(entries[0].name);
      CanonLookup(rest, name);
      forall k | 0 <= k < |rest| ensures CString(rest[k].name) != name {
        assert rest[k] == entries[k + 1];
      }
      assert CanonEntries(entries).Keys == CanonEntries(rest).Keys + {name};
    }
  }

  /** A set inside another of the same size is the whole of it. */
  lemma Pigeonhole(a: set<bytes>, b: set<bytes>)
    requires a <= b && |a| == |b|
    ensures a == b
  {
    assert b == a + (b - a);
    assert |b| == |a| + |b - a|;
  }

  lemma {:induction false} SimilarIff(v: Value, w: Value)
    requires DistinctNames(v) && DistinctNames(w)
    ensures Similar(v, w) <==> CanonOf(v) == CanonOf(w)
    decreases v
  {
    if v.Arr? && w.Arr? {
      ArraysSimilarIff(v.items, w.items);
    } else if v.Obj? && w.Obj? {
      ObjectsSimilarIff(v.entries, w.entries);
    }
  }

  lemma {:induction false} ArraysSimilarIff(a: seq<Value>, b: seq<Value>)
    requires forall k | 0 <= k < |a| :: DistinctNames(a[k])
    requires forall k | 0 <= k < |b| :: DistinctNames(b[k])
    ensures Similar(Arr(a), Arr(b)) <==> CanonItems(a) == CanonItems(b)
    decreases a
  {
    if |a| == |b| {
      forall k | 0 <= k < |a| ensures Similar(a[k], b[k]) <==> CanonOf(a[k]) == CanonOf(b[k]) {
        SimilarIff(a[k], b[k]);
      }
      if CanonItems(a) == CanonItems(b) {
        forall k | 0 <= k < |a| ensures Similar(a[k], b[k]) {
          assert CanonItems(a)[k] == CanonItems(b)[k];
        }
      }
    }
  }

  /** An entry of the first object is similar exactly when the second object's map has its key with its meaning. */
  lemma {:induction false} EntrySimilarIff(e: Entry, b: seq<Entry>)
    requires DistinctNames(e.value) && forall k | 0 <= k < |b| :: DistinctNames(b[k].value)
    ensures SimilarEntry(e, b) <==>
              CString(e.name) in CanonEntries(b) && CanonEntries(b)[CString(e.name)] == CanonOf(e.value)
    decreases e
  {
    CanonLookup(b, CString(e.name));
    var r := Lookup(b, CString(e.name));
    if r.Some? {
      SimilarIff(e.value, r.value);
    }
  }

  lemma {:induction false} ObjectsSimilarIff(a: seq<Entry>, b: seq<Entry>)
    requires Unrepeated(a) && forall k | 0 <= k < |a| :: DistinctNames(a[k].value)
    requires Unrepeated(b) && forall k | 0 <= k < |b| :: DistinctNames(b[k].value)
    ensures Similar(Obj(a), Obj(b)) <==> CanonEntries(a) == CanonEntries(b)
    decreases a
  {
    var m, n := CanonEntries(a), CanonEntries(b);
    KeysCounted(a);
    KeysCounted(b);
    forall k | 0 <= k < |a|
      ensures SimilarEntry(a[k], b) <==> CString(a[k].name) in n && n[CString(a[k].name)] == CanonOf(a[k].value)
      ensures CString(a[k].name) in m && m[CString(a[k].name)] == CanonOf(a[k].value)
    {
      EntrySimilarIff(a[k], b);
      LookupUnrepeated(a, k);
      CanonLookup(a, CString(a[k].name));
    }
    if Similar(Obj(a), Obj(b)) {
      forall name | name in m ensures name in n && n[name] == m[name] {
        CanonLookup(a, name);
        var k: nat :| FirstWith(a, name, k) && Lookup(a, name) == Some(a[k].value);
        assert SimilarEntry(a[k], b);
      }
      Pigeonhole(m.Keys, n.Keys);
    }
  }

  /** On trees without repeated names the comparison finds no difference exactly between values of one meaning. */
  lemma CompareDecidesMeaning(v: Value, w: Value)
    requires DistinctNames(v) && DistinctNames(w)
    ensures Similar(v, w) <==> CanonOf(v) == CanonOf(w)
    ensures Similar(v, w) <==> Similar(w, v)
    ensures Similar(v, v)
  {
    SimilarIff(v, w);
    SimilarIff(w, v);
    SimilarIff(v, v);
  }

  lemma SimilarTransitive(u: Value, v: Value, w: Value)
    requires DistinctNames(u) && DistinctNames(v) && DistinctNames(w) && Similar(u, v) && Similar(v, w)
    ensures Similar(u, w)
  {
    SimilarIff(u, v);
    SimilarIff(v, w);
    SimilarIff(u, w);
  }

  // Repeated names

  function MaxLength(entries: seq<Entry>): (m: nat)
    ensures forall k | 0 <= k < |entries| :: |entries[k].name| <= m
  {
    if entries == [] then 0 else
      var m := MaxLength(entries[1..]);
      assert forall k | 0 < k < |entries| :: entries[k] == entries[1..][k - 1];
      if |entries[0].name| > m then |entries[0].name| else m
  }

  /** The letter a, n times. */
  function Letters(n: nat): (s: bytes)
    ensures |s| == n && NulFree(s)
  {
    seq(n, _ => 0x61)
  }

  /** An earlier entry has the name of entry k. */
  predicate Repeats(entries: seq<Entry>, k: nat)
    requires k < |entries|
  {
    exists j :: 0 <= j < k && CString(entries[j].name) == CString(entries[k].name)
  }

  /** The name of entry k, or one that no entry has in place of a repeated one. */
  function FreshName(entries: seq<Entry>, k: nat): (s: bytes)
    requires k < |entries|
  {
    if Repeats(entries, k) then Letters(MaxLength(entries) + 1 + k) else entries[k].name
  }

  /** The value with every repeated name replaced by one of its own. */
  function Renamed(v: Value): Value
    decreases v
  {
    match v
    case Arr(items) => Arr(seq(|items|, k requires 0 <= k < |items| => Renamed(items[k])))
    case Obj(entries) =>
      Obj(seq(|entries|, k requires 0 <= k < |entries| =>
        assert entries[k] < v; Entry(FreshName(entries, k), Renamed(entries[k].value))))
    case _ => v
  }

  lemma {:induction false} CStringLength(s: bytes)
    ensures |CString(s)| <= |s|
    decreases |s|
  {
    if s != [] && s[0] != 0 {
      CStringLength(s[1..]);
    }
  }

  /** A replaced name is longer than every name of the object, and as long as its place says. */
  lemma FreshNames(entries: seq<Entry>, k: nat)
    requires k < |entries|
    ensures |CString(entries[k].name)| <= MaxLength(entries)
    ensures var name := CString(FreshName(entries, k));
      if Repeats(entries, k) then |name| == MaxLength(entries) + 1 + k else name == CString(entries[k].name)
  {
    CStringLength(entries[k].name);
    CStringNulFree(Letters(MaxLength(entries) + 1 + k));
  }

  lemma {:induction false} RenamedDistinct(v: Value)
    ensures DistinctNames(Renamed(v))
    decreases v
  {
    match v
    case Arr(items) =>
      forall k | 0 <= k < |items| ensures DistinctNames(Renamed(items[k])) {
        RenamedDistinct(items[k]);
      }
    case Obj(entries) =>
      var es := Renamed(v).entries;
      forall k | 0 <= k < |entries| ensures DistinctNames(es[k].value) {
        assert entries[k] < v;
        RenamedDistinct(entries[k].value);
      }
      forall j, k | 0 <= j < k < |entries| ensures CString(es[j].name) != CString(es[k].name) {
        FreshNames(entries, j);
        FreshNames(entries, k);
      }
    case _ =>
  }

  /** Renaming leaves what a lookup by a name of the object finds where it was. */
  lemma LookupRenamed(entries: seq<Entry>, name: bytes)
    requires Lookup(entries, name).Some?
    ensures Lookup(Renamed(Obj(entries)).entries, name) == Some(Renamed(Lookup(entries, name).value))
  {
    var es := Renamed(Obj(entries)).entries;
    var k: nat :| FirstWith(entries, name, k) && Lookup(entries, name).value == entries[k].value;
    forall j: nat | j <= k ensures CString(es[j].name) == name <==> j == k {
      FreshNames(entries, j);
      FreshNames(entries, k);
    }
    LookupFirst(es, name, k);
  }

  lemma {:induction false} SimilarToRenamed(v: Value, w: Value)
    requires Similar(v, w)
    ensures Similar(v, Renamed(w))
    decreases v
  {
    match v
    case Arr(items) =>
      forall k | 0 <= k < |items| ensures Similar(items[k], Renamed(w).items[k]) {
        SimilarToRenamed(items[k], w.items[k]);
      }
    case Obj(entries) =>
      forall k | 0 <= k < |entries| ensures SimilarEntry(entries[k], Renamed(w).entries) {
        assert entries[k] < v && SimilarEntry(entries[k], w.entries);
        var name := CString(entries[k].name);
        LookupRenamed(w.entries, name);
        SimilarToRenamed(entries[k].value, Lookup(w.entries, name).value);
      }
    case _ =>
  }

  lemma {:induction false} RenamedSimilar(v: Value)
    requires Similar(Renamed(v), v)
    ensures DistinctNames(v)
    decreases v
  {
    match v
    case Arr(items) =>
      forall k | 0 <= k < |items| ensures DistinctNames(items[k]) {
        assert Similar(Renamed(v).items[k], items[k]);
        RenamedSimilar(items[k]);
      }
    case Obj(entries) =>
      var es := Renamed(v).entries;
      forall k: nat | k < |entries| ensures !Repeats(entries, k) {
        assert SimilarEntry(es[k], entries);
        NotThere(entries, k);
      }
      forall j, k | 0 <= j < k < |entries| ensures CString(entries[j].name) != CString(entries[k].name) {
        assert !Repeats(entries, k);
      }
      forall k | 0 <= k < |entries| ensures DistinctNames(entries[k].value) {
        assert SimilarEntry(es[k], entries) && entries[k] < v;
        LookupUnrepeated(entries, k);
        RenamedSimilar(entries[k].value);
      }
    case _ =>
  }

  /** No entry has a replaced name. */
  lemma NotThere(entries: seq<Entry>, k: nat)
    requires k < |entries| && Lookup(entries, CString(FreshName(entries, k))).Some?
    ensures !Repeats(entries, k)
  {
    var name := CString(FreshName(entries, k));
    var n: nat :| FirstWith(entries, name, n);
    FreshNames(entries, k);
    FreshNames(entries, n);
  }

  /** Exactly on the values without repeated names the comparison is reflexive, and symmetric towards all such
      values. */
  lemma EquivalenceIff(v: Value)
    ensures DistinctNames(v) <==>
              Similar(v, v) && forall w | DistinctNames(w) :: (Similar(v, w) <==> Similar(w, v))
  {
    if DistinctNames(v) {
      forall w | DistinctNames(w) ensures Similar(v, v) && (Similar(v, w) <==> Similar(w, v)) {
        CompareDecidesMeaning(v, w);
      }
      CompareDecidesMeaning(v, v);
    } else if Similar(v, v) {
      var w := Renamed(v);
      RenamedDistinct(v);
      SimilarToRenamed(v, v);
      if Similar(w, v) {
        RenamedSimilar(v);
      }
      assert DistinctNames(w) && !(Similar(v, w) <==> Similar(w, v));
    }
  }

  /** A pair on which it is not symmetric: {"a":1,"a":1} against {"a":1,"b":1}. */
  lemma RepeatedNamesBreakSymmetry()
    ensures var a, b: bytes := [0x61], [0x62];
            var twice, both := Obj([Entry(a, Integer(1)), Entry(a, Integer(1))]),
                Obj([Entry(a, Integer(1)), Entry(b, Integer(1))]);
            Similar(twice, both) && !Similar(both, twice)
  {
    var a, b: bytes := [0x61], [0x62];
    CStringNulFree(a);
    CStringNulFree(b);
    var one, other, third := Entry(a, Integer(1)), Entry(b, Integer(1)), [Entry(a, Integer(1)), Entry(b, Integer(1))];
    assert Lookup(third, a) == Some(Integer(1));
    var twice := [one, one];
    assert Lookup(twice[1..][1..], b) == None;
    assert Lookup(twice[1..], b) == None;
    assert Lookup(twice, b) == None;
    assert SimilarEntry(one, third);
    assert !SimilarEntry(third[1], twice);
  }
}
