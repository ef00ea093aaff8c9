/** The recursive merge of configuration objects, taken on values. */
module Merge {
  import opened Wrappers
  import opened Text

  /** Nullish stands for null, undefined and a missing property. */
  datatype Value =
    | Obj(fields: Fields)
    | Arr(items: seq<Value>)
    | Str(text: string)
    | Num(number: int)
    | Bool(truth: bool)
    | Nullish
  type Fields = map<string, Value>

  /** The property constructor is Object's own: no property of that name hides it. */
  predicate Plain(v: Value) { v.Obj? && "constructor" !in v.fields }

  /** The elements under their indices. */
  function Indexed(items: seq<Value>): Fields {
    if items == [] then map[]
    else
      var last := |items| - 1;
      Indexed(items[..last])[Itoa(last) := items[last]]
  }

  function Characters(text: string): seq<Value> { seq(|text|, i requires 0 <= i < |text| => Str([text[i]])) }

  /** Object.assign({}, v): own enumerable properties; arrays and strings have their indices. */
  function Properties(v: Value): Fields {
    match v
    case Obj(fields) => fields
    case Arr(items) => Indexed(items)
    case Str(text) => Indexed(Characters(text))
    case _ => map[]
  }

  function Get(fields: Fields, key: string): Value { if key in fields then fields[key] else Nullish }

  /** The loop body for one key: what the property becomes. */
  function Merged(x: Value, y: Value): Value
    decreases y
  {
    if Plain(y) then Obj(MergedInto(Properties(x), y))
    else if x.Arr? && y.Arr? then Arr(x.items + y.items)
    else y
  }

  /** All keys of an object merged into the properties of another. */
  function MergedInto(fields: Fields, y: Value): (r: Fields)
    requires y.Obj?
    ensures r.Keys == fields.Keys + y.fields.Keys
    decreases y, 0
  {
    map k | k in fields.Keys + y.fields.Keys ::
      if k in y.fields then Merged(Get(fields, k), y.fields[k]) else fields[k]
  }

  /** The test of a property's constructor throws for null and undefined. */
  predicate Throws(y: Value)
    requires y.Obj?
  {
    exists k :: k in y.fields && (y.fields[k].Nullish? || (Plain(y.fields[k]) && Throws(y.fields[k])))
  }

  /** The result, or None where an exception leaves the function. */
  function SysMerge(object1: Value, object2: Value): Option<Fields> {
    var o2 := Obj(Properties(object2));
    if Throws(o2) then None else Some(MergedInto(Properties(object1), o2))
  }

  // -------------------------------------------------------------------- the loop

  lemma {:induction false} IndexedIn(items: seq<Value>, key: string)
    requires key in Indexed(items)
    ensures Indexed(items)[key] in items
  {
    var last := |items| - 1;
    if key != Itoa(last) {
      IndexedIn(items[..last], key);
    }
  }

  /** Objects nest to a finite depth. */
  lemma PropertyIsSmaller(v: Value, key: string)
    requires key in Properties(v) && Properties(v)[key].Obj?
    ensures Properties(v)[key] < v
  {
    match v
    case Obj(_) =>
    case Arr(items) => IndexedIn(items, key);
    case Str(text) => IndexedIn(Characters(text), key);
    case _ =>
  }

  /** What the loop has made of o1 once these keys are done; none of them threw. */
  predicate SoFar(o1: Fields, start: Fields, o2: Fields, done: set<string>) {
    && done <= o2.Keys && o1.Keys == start.Keys + done
    && (forall k :: k in done ==> !o2[k].Nullish? && !(Plain(o2[k]) && Throws(o2[k])))
    && (forall k :: k in done ==> o1[k] == Merged(Get(start, k), o2[k]))
    && (forall k :: k in start && k !in done ==> o1[k] == start[k])
  }

  lemma OneMoreKey(o1: Fields, start: Fields, o2: Fields, done: set<string>, key: string, value: Value)
    requires SoFar(o1, start, o2, done) && key in o2 && key !in done
    requires !o2[key].Nullish? && !(Plain(o2[key]) && Throws(o2[key])) && value == Merged(Get(o1, key), o2[key])
    ensures SoFar(o1[key := value], start, o2, done + {key})
  {
    assert Get(o1, key) == Get(start, key);
  }

  lemma AllKeys(o1: Fields, start: Fields, o2: Fields)
    requires SoFar(o1, start, o2, o2.Keys)
    ensures o1 == MergedInto(start, Obj(o2)) && !Throws(Obj(o2))
  {
  }

  /** Keys in any order, one after the other into the copy o1. */
  method SysMergeObjects(object1: Value, object2: Value) returns (r: Option<Fields>)
    ensures r == SysMerge(object1, object2)
    decreases object2, 1
  {
    var o1 := Properties(object1);
    var o2 := Properties(object2);
    var keys := o2.Keys;
    ghost var start := o1;
    while keys != {}
      invariant keys <= o2.Keys && SoFar(o1, start, o2, o2.Keys - keys)
      decreases keys
    {
      var key :| key in keys;
      var value := MergeProperty(object2, key, Get(o1, key));
      if value.None? {
        return None;
      }
      OneMoreKey(o1, start, o2, o2.Keys - keys, key, value.value);
      o1 := o1[key := value.value];
      assert o2.Keys - (keys - {key}) == o2.Keys - keys + {key};
      keys := keys - {key};
    }
    assert o2.Keys - keys == o2.Keys;
    AllKeys(o1, start, o2);
    return Some(o1);
  }

  /** The loop body: the new value of a property, or None for an exception. */
  method MergeProperty(object2: Value, key: string, x: Value) returns (value: Option<Value>)
    requires key in Properties(object2)
    ensures var y := Properties(object2)[key];
            value == if y.Nullish? || (Plain(y) && Throws(y)) then None else Some(Merged(x, y))
    decreases object2, 0
  {
    var y := Properties(object2)[key];
    if y.Nullish? {
      return None;
    }
    if Plain(y) {
      PropertyIsSmaller(object2, key);
      var inner := SysMergeObjects(x, y);
      value := if inner.None? then None else Some(Obj(inner.value));
    } else if x.Arr? && y.Arr? {
      value := Some(Arr(x.items + y.items));
    } else {
      value := Some(y);
    }
  }

  // ------------------------------------------------------------------ along paths

  /** What stands at the end of a path of property names. */
  function ValueAt(v: Value, path: seq<string>): Option<Value>
    decreases |path|
  {
    if path == [] then Some(v)
    else if path[0] in Properties(v) then ValueAt(Properties(v)[path[0]], path[1..])
    else None
  }

  /** The path leads through objects to a value of y that is none. */
  predicate Leaf(y: Value, path: seq<string>)
    decreases |path|
  {
    if path == [] then !Plain(y) else Plain(y) && path[0] in y.fields && Leaf(y.fields[path[0]], path[1..])
  }

  /** The path leads through objects to a key that y does not have. */
  predicate Absent(y: Value, path: seq<string>)
    decreases |path|
  {
    path != [] && Plain(y) && (path[0] in y.fields ==> Absent(y.fields[path[0]], path[1..]))
  }

  /**
   At every path that ends in y the value of y is the result, except that an array is appended to an array
   that is there; at every path that y does not go, the result is what was there.
   */
  lemma {:induction false} MergedAlongPaths(x: Value, y: Value, path: seq<string>)
    ensures Leaf(y, path) ==>
      var present, added := ValueAt(x, path), ValueAt(y, path);
      && added.Some?
      && ValueAt(Merged(x, y), path) == if present.Some? && present.value.Arr? && added.value.Arr?
                                        then Some(Arr(present.value.items + added.value.items)) else added
    ensures Absent(y, path) ==> ValueAt(Merged(x, y), path) == ValueAt(x, path)
    decreases |path|
  {
    if path != [] && Plain(y) {
      var k, m := path[0], MergedInto(Properties(x), y);
      assert Merged(x, y) == Obj(m) && Properties(Obj(m)) == m;
      if k in y.fields {
        var rest, before := path[1..], Get(Properties(x), k);
        MergedAlongPaths(before, y.fields[k], rest);
        assert m[k] == Merged(before, y.fields[k]) && ValueAt(Obj(m), path) == ValueAt(m[k], rest);
        assert ValueAt(y, path) == ValueAt(y.fields[k], rest);
        assert k in Properties(x) ==> ValueAt(x, path) == ValueAt(before, rest);
        assert rest != [] && k !in Properties(x) ==> ValueAt(before, rest) == None == ValueAt(x, path);
        assert Leaf(y, path) ==> Leaf(y.fields[k], rest);
        assert Absent(y, path) ==> Absent(y.fields[k], rest);
        assert Absent(y, path) ==> ValueAt(Merged(x, y), path) == ValueAt(x, path);
        assert Leaf(y, path) ==> ValueAt(y, path).Some?;
      } else {
        assert k in m <==> k in Properties(x);
      }
    }
  }

  /** The path leads through objects to a null. */
  predicate NullAt(y: Value, path: seq<string>) { Leaf(y, path) && ValueAt(y, path) == Some(Nullish) }

  lemma {:induction false} NullThrows(y: Value, path: seq<string>)
    requires y.Obj? && Plain(y) && NullAt(y, path)
    ensures Throws(y)
    decreases |path|
  {
    var v := y.fields[path[0]];
    assert Leaf(v, path[1..]) && ValueAt(v, path[1..]) == Some(Nullish);
    if Plain(v) {
      NullThrows(v, path[1..]);
    } else {
      assert path[1..] == [] && v.Nullish?;
    }
  }

  lemma {:induction false} ThrowsAtNull(y: Value) returns (path: seq<string>)
    requires Plain(y) && Throws(y)
    ensures NullAt(y, path)
    decreases y
  {
    var k :| k in y.fields && (y.fields[k].Nullish? || (Plain(y.fields[k]) && Throws(y.fields[k])));
    var rest := [];
    if !y.fields[k].Nullish? {
      rest := ThrowsAtNull(y.fields[k]);
    }
    path := [k] + rest;
    assert path[1..] == rest;
  }

  /** Merging throws exactly when some path through objects ends in a null. */
  lemma ThrowsMeans(y: Value)
    requires Plain(y)
    ensures Throws(y) <==> exists path :: NullAt(y, path)
  {
    if Throws(y) {
      var path := ThrowsAtNull(y);
    }
    if path :| NullAt(y, path) {
      NullThrows(y, path);
    }
  }

  // ------------------------------------------------------------- keys and identity

  /** The keys of the result are those of both sides. */
  lemma KeysAreUnion(object1: Value, object2: Value)
    ensures var r := SysMerge(object1, object2);
            r.Some? ==> r.value.Keys == Properties(object1).Keys + Properties(object2).Keys
  {
  }

  lemma RightIdentity(fields: Fields)
    ensures MergedInto(fields, Obj(map[])) == fields
  {
  }

  lemma {:induction false} LeftIdentity(y: Value)
    requires y.Obj?
    ensures MergedInto(map[], y) == y.fields
    decreases y
  {
    forall k | k in y.fields ensures Merged(Nullish, y.fields[k]) == y.fields[k] {
      if y.fields[k].Obj? { LeftIdentity(y.fields[k]); }
    }
  }

  /** Merging into nothing copies. */
  lemma CopyIsSame(y: Value)
    ensures Merged(Nullish, y) == y
  {
    if y.Obj? { LeftIdentity(y); }
  }

  /** The empty object changes nothing on either side. */
  lemma EmptyIsIdentity(fields: Fields)
    ensures SysMerge(Obj(fields), Obj(map[])) == Some(fields)
    ensures !Throws(Obj(fields)) ==> SysMerge(Obj(map[]), Obj(fields)) == Some(fields)
  {
    RightIdentity(fields);
    LeftIdentity(Obj(fields));
  }

  // ------------------------------------------------------ exceptions of two merges

  /** A null is left after merging c into these fields: it comes from c, or c does not overwrite it. */
  predicate NullKept(fields: Fields, c: Value)
    requires c.Obj?
    decreases c
  {
    exists k :: k in fields.Keys + c.fields.Keys && NullKeptAt(fields, c, k)
  }

  predicate NullKeptAt(fields: Fields, c: Value, k: string)
    requires c.Obj? && k in fields.Keys + c.fields.Keys
    decreases c, 0
  {
    if k !in c.fields then fields[k].Nullish? || (Plain(fields[k]) && Throws(fields[k]))
    else
      || c.fields[k].Nullish?
      || (Plain(c.fields[k]) && "constructor" !in Properties(Get(fields, k))
          && NullKept(Properties(Get(fields, k)), c.fields[k]))
  }

  /** Merging something more into the result throws exactly then. */
  lemma {:induction false} MergedThrows(fields: Fields, c: Value)
    requires c.Obj?
    ensures Throws(Obj(MergedInto(fields, c))) <==> NullKept(fields, c)
    decreases c
  {
    var m := MergedInto(fields, c);
    forall k | k in m
      ensures (m[k].Nullish? || (Plain(m[k]) && Throws(m[k]))) <==> NullKeptAt(fields, c, k)
    {
      if k in c.fields {
        var x, y := Get(fields, k), c.fields[k];
        assert m[k] == Merged(x, y);
        if Plain(y) {
          MergedThrows(Properties(x), y);
          assert m[k].fields.Keys == Properties(x).Keys + y.fields.Keys;
        }
      }
    }
  }

  // ------------------------------------------------------------------ associativity

  /** Merging s into these fields leaves nothing but s. */
  predicate Absorbed(fields: Fields, s: Value)
    requires s.Obj?
    decreases s, 0
  {
    forall k :: k in fields ==> k in s.fields && AbsorbedAt(fields[k], s.fields[k])
  }

  predicate AbsorbedAt(x: Value, y: Value)
    decreases y, 1
  {
    if Plain(y) then Absorbed(Properties(x), y) else !(x.Arr? && y.Arr? && x.items != [])
  }

  lemma {:induction false} AbsorbedMeans(fields: Fields, s: Value)
    requires s.Obj?
    ensures MergedInto(fields, s) == s.fields <==> Absorbed(fields, s)
    decreases s
  {
    var m := MergedInto(fields, s);
    forall k | k in s.fields ensures m[k] == s.fields[k] <==> k in fields ==> AbsorbedAt(fields[k], s.fields[k]) {
      var x, y := Get(fields, k), s.fields[k];
      assert m[k] == Merged(x, y);
      CopyIsSame(y);
      if Plain(y) {
        AbsorbedMeans(Properties(x), y);
      } else if x.Arr? && y.Arr? {
        assert |x.items + y.items| == |x.items| + |y.items|;
        assert x.items == [] ==> x.items + y.items == y.items;
      }
    }
    assert (forall k :: k in s.fields ==> m[k] == s.fields[k]) && m.Keys == s.fields.Keys ==> m == s.fields;
  }

  /** Merging y into x leaves x as it is. */
  predicate Unchanged(x: Value, y: Value)
    decreases y
  {
    if Plain(y) then
      x.Obj? && forall k :: k in y.fields ==> k in x.fields && Unchanged(x.fields[k], y.fields[k])
    else if x.Arr? && y.Arr? then y.items == []
    else x == y
  }

  lemma {:induction false} UnchangedMeans(x: Value, y: Value)
    ensures Merged(x, y) == x <==> Unchanged(x, y)
    decreases y
  {
    if Plain(y) && x.Obj? {
      var m := MergedInto(x.fields, y);
      forall k | k in y.fields && k in x.fields ensures m[k] == x.fields[k] <==> Unchanged(x.fields[k], y.fields[k]) {
        UnchangedMeans(x.fields[k], y.fields[k]);
      }
      assert m.Keys == x.fields.Keys && (forall k :: k in m ==> m[k] == x.fields[k]) ==> m == x.fields;
    } else if x.Arr? && y.Arr? {
      assert |x.items + y.items| == |x.items| + |y.items|;
      assert y.items == [] ==> x.items + y.items == x.items;
    }
  }

  function Items(v: Value): seq<Value> { if v.Arr? then v.items else [] }

  /** Merging z hides every difference between x and y. */
  predicate Hides(x: Value, y: Value, z: Value)
    decreases z
  {
    if Plain(z) then FieldsHide(Properties(x), Properties(y), z) else z.Arr? ==> Items(x) == Items(y)
  }

  predicate FieldsHide(p: Fields, q: Fields, z: Value)
    requires z.Obj?
    decreases z, 0
  {
    && (forall k :: k in p.Keys + q.Keys && k !in z.fields ==> k in p && k in q && p[k] == q[k])
    && (forall k :: k in z.fields ==> Hides(Get(p, k), Get(q, k), z.fields[k]))
  }

  lemma {:induction false} HidesMeans(x: Value, y: Value, z: Value)
    ensures Merged(x, z) == Merged(y, z) <==> Hides(x, y, z)
    decreases z
  {
    if Plain(z) {
      HiddenFields(Properties(x), Properties(y), z);
    } else if z.Arr? {
      ItemsInFront(x, z);
      ItemsInFront(y, z);
      SameFront(Items(x), Items(y), z.items);
    }
  }

  lemma {:induction false} HiddenFields(p: Fields, q: Fields, z: Value)
    requires z.Obj?
    ensures MergedInto(p, z) == MergedInto(q, z) <==> FieldsHide(p, q, z)
    decreases z, 0
  {
    var left, right := MergedInto(p, z), MergedInto(q, z);
    forall k | k in z.fields ensures left[k] == right[k] <==> Hides(Get(p, k), Get(q, k), z.fields[k]) {
      HidesMeans(Get(p, k), Get(q, k), z.fields[k]);
    }
    if FieldsHide(p, q, z) {
      SameFields(left, right);
    } else if left == right {
      forall k | k in p.Keys + q.Keys && k !in z.fields ensures k in p && k in q && p[k] == q[k] {
        assert k in left.Keys + right.Keys;
      }
    }
  }

  lemma SameFields(left: Fields, right: Fields)
    requires left.Keys == right.Keys && forall k :: k in left ==> left[k] == right[k]
    ensures left == right
  {
  }

  lemma ItemsInFront(x: Value, z: Value)
    requires z.Arr?
    ensures Merged(x, z) == Arr(Items(x) + z.items)
  {
    assert [] + z.items == z.items;
  }

  lemma SameFront(a: seq<Value>, b: seq<Value>, c: seq<Value>)
    ensures a + c == b + c <==> a == b
  {
    if a + c == b + c {
      assert |a| == |a + c| - |c| == |b|;
      assert a == (a + c)[..|a|] == (b + c)[..|b|] == b;
    }
  }

  /** Merging y before z makes no difference to x. */
  predicate Skips(x: Value, y: Value, z: Value)
    decreases z
  {
    if !Plain(z) then z.Arr? && y.Arr? ==> y.items == []
    else if "constructor" in Properties(y) then Hides(x, y, z)
    else FieldsSkip(Properties(x), Properties(y), z)
  }

  predicate FieldsSkip(p: Fields, q: Fields, z: Value)
    requires z.Obj?
    decreases z, 0
  {
    forall k :: k in q ==>
      if k in z.fields then Skips(Get(p, k), q[k], z.fields[k]) else k in p && Unchanged(p[k], q[k])
  }

  lemma {:induction false} SkipsMeans(x: Value, y: Value, z: Value)
    ensures Merged(x, z) == Merged(x, Merged(y, z)) <==> Skips(x, y, z)
    decreases z
  {
    if !Plain(z) {
      ScalarSkips(x, y, z);
    } else if "constructor" in Properties(y) {
      assert Merged(x, Merged(y, z)) == Merged(y, z);
      HidesMeans(x, y, z);
    } else {
      SkippedFields(Properties(x), Properties(y), z);
    }
  }

  lemma ScalarSkips(x: Value, y: Value, z: Value)
    requires !Plain(z)
    ensures Merged(x, z) == Merged(x, Merged(y, z)) <==> (z.Arr? && y.Arr? ==> y.items == [])
  {
    if z.Arr? && y.Arr? {
      ItemsInFront(x, z);
      ItemsInFront(x, Merged(y, z));
      assert |Items(x) + (y.items + z.items)| == |Items(x) + z.items| + |y.items|;
      assert y.items == [] ==> y.items + z.items == z.items;
    }
  }

  lemma {:induction false} SkippedFields(p: Fields, q: Fields, z: Value)
    requires z.Obj?
    ensures MergedInto(p, z) == MergedInto(p, Obj(MergedInto(q, z))) <==> FieldsSkip(p, q, z)
    decreases z, 0
  {
    var w := Obj(MergedInto(q, z));
    var left, right := MergedInto(p, z), MergedInto(p, w);
    forall k | k in right
      ensures (k in left && left[k] == right[k]) <==>
        (k in q ==> if k in z.fields then Skips(Get(p, k), q[k], z.fields[k]) else k in p && Unchanged(p[k], q[k]))
    {
      SkippedField(p, q, z, k);
    }
    if FieldsSkip(p, q, z) {
      SameFields(left, right);
    }
  }

  lemma {:induction false} SkippedField(p: Fields, q: Fields, z: Value, k: string)
    requires z.Obj? && k in p.Keys + q.Keys + z.fields.Keys
    ensures var left, right := MergedInto(p, z), MergedInto(p, Obj(MergedInto(q, z)));
      (k in left && left[k] == right[k]) <==>
        (k in q ==> if k in z.fields then Skips(Get(p, k), q[k], z.fields[k]) else k in p && Unchanged(p[k], q[k]))
    decreases z, 0, 0
  {
    if k in q && k in z.fields {
      SkipsMeans(Get(p, k), q[k], z.fields[k]);
    } else if k in z.fields {
      CopyIsSame(z.fields[k]);
    } else if k in q && k in p {
      UnchangedMeans(p[k], q[k]);
    }
  }

  /**
   Two arrays before an object: joined first, an index counts in both together; merged one by one, it counts
   in each of them. Behind both the object must have the index; where only one array reaches, or both do, it
   must hide the difference.
   */
  predicate ElementAssociates(xs: seq<Value>, ys: seq<Value>, z: Value, i: nat)
    requires z.Obj? && i < |xs| + |ys|
  {
    var k := Itoa(i);
    if i < |xs| then
      i < |ys| ==> if k in z.fields then Skips(xs[i], ys[i], z.fields[k]) else Unchanged(xs[i], ys[i])
    else if i < |ys| then
      if k in z.fields then Hides(ys[i - |xs|], ys[i], z.fields[k]) else ys[i - |xs|] == ys[i]
    else k in z.fields && Hides(ys[i - |xs|], Nullish, z.fields[k])
  }

  predicate ElementsAssociate(xs: seq<Value>, ys: seq<Value>, z: Value)
    requires z.Obj?
  {
    forall i :: 0 <= i < |xs| + |ys| ==> ElementAssociates(xs, ys, z, i)
  }

  lemma {:induction false} IndexedAt(items: seq<Value>, i: nat)
    ensures i < |items| ==> Itoa(i) in Indexed(items) && Indexed(items)[Itoa(i)] == items[i]
    ensures i >= |items| ==> Itoa(i) !in Indexed(items)
  {
    if items != [] {
      var last: nat := |items| - 1;
      IndexedAt(items[..last], i);
      ValueOfDigits(i);
      ValueOfDigits(last);
    }
  }

  lemma {:induction false} IndexOf(items: seq<Value>, key: string) returns (i: nat)
    requires key in Indexed(items)
    ensures i < |items| && key == Itoa(i)
  {
    var last := |items| - 1;
    if key == Itoa(last) {
      i := last;
    } else {
      i := IndexOf(items[..last], key);
    }
  }

  lemma ElementMeans(xs: seq<Value>, ys: seq<Value>, z: Value, i: nat)
    requires z.Obj? && i < |xs| + |ys|
    ensures var left := MergedInto(Indexed(xs + ys), z);
            var right := MergedInto(Indexed(xs), Obj(MergedInto(Indexed(ys), z)));
            var k := Itoa(i);
            k in left && (k in right && left[k] == right[k] <==> ElementAssociates(xs, ys, z, i))
  {
    var k := Itoa(i);
    IndexedAt(xs + ys, i);
    IndexedAt(xs, i);
    IndexedAt(ys, i);
    if k in z.fields {
      CopyIsSame(z.fields[k]);
      CopyIsSame(Merged(Get(Indexed(ys), k), z.fields[k]));
      if i < |xs| && i < |ys| {
        SkipsMeans(xs[i], ys[i], z.fields[k]);
      } else if i >= |xs| {
        HidesMeans(ys[i - |xs|], Get(Indexed(ys), k), z.fields[k]);
      }
    } else if i < |ys| {
      CopyIsSame(ys[i]);
      if i < |xs| {
        UnchangedMeans(xs[i], ys[i]);
      }
    }
  }

  lemma ArraysBeforeObject(xs: seq<Value>, ys: seq<Value>, z: Value)
    requires z.Obj?
    ensures MergedInto(Indexed(xs + ys), z) == MergedInto(Indexed(xs), Obj(MergedInto(Indexed(ys), z)))
       <==> ElementsAssociate(xs, ys, z)
  {
    var left, right := MergedInto(Indexed(xs + ys), z), MergedInto(Indexed(xs), Obj(MergedInto(Indexed(ys), z)));
    forall i: nat | i < |xs| + |ys|
      ensures var k := Itoa(i);
        k in left && (k in right && left[k] == right[k] <==> ElementAssociates(xs, ys, z, i))
    {
      ElementMeans(xs, ys, z, i);
    }
    if ElementsAssociate(xs, ys, z) {
      forall k | k in left.Keys + right.Keys ensures k in left && k in right && left[k] == right[k] {
        OtherKeys(xs, ys, z, k);
      }
      assert left.Keys == right.Keys;
    }
  }

  /** A key is an index of the two arrays together, or only the object's. */
  lemma OtherKeys(xs: seq<Value>, ys: seq<Value>, z: Value, k: string)
    requires z.Obj? && k in Indexed(xs + ys).Keys + Indexed(xs).Keys + Indexed(ys).Keys + z.fields.Keys
    ensures (exists i: nat :: i < |xs| + |ys| && k == Itoa(i))
      || (k in z.fields && Get(Indexed(xs + ys), k) == Get(Indexed(xs), k) == Get(Indexed(ys), k) == Nullish
          && Merged(Nullish, Merged(Nullish, z.fields[k])) == Merged(Nullish, z.fields[k]))
  {
    if k in Indexed(xs + ys) {
      var i := IndexOf(xs + ys, k);
    } else if k in Indexed(xs) {
      var i := IndexOf(xs, k);
    } else if k in Indexed(ys) {
      var i := IndexOf(ys, k);
    } else {
      CopyIsSame(z.fields[k]);
    }
  }

  /**
   When two merges of three values under one key may be done in either order: by the
   kinds of the values, and by what the middle value would have overwritten.
   */
  predicate Associates(x: Value, y: Value, z: Value)
    decreases z
  {
    if Plain(z) then
      if x.Arr? && y.Arr? then ElementsAssociate(x.items, y.items, z)
      else if y.Obj? then Plain(y) ==> FieldsAssociate(Properties(x), y, z)
      else Absorbed(Properties(x), Obj(MergedInto(Properties(y), z)))
    else !(z.Arr? && !y.Arr? && x.Arr? && x.items != [])
  }

  predicate FieldsAssociate(fields: Fields, y: Value, z: Value)
    requires y.Obj? && z.Obj?
    decreases z, 0
  {
    forall k :: k in y.fields && k in z.fields ==> Associates(Get(fields, k), y.fields[k], z.fields[k])
  }

  lemma {:induction false} IndicesAreNumbers(items: seq<Value>)
    ensures "constructor" !in Indexed(items)
  {
    if items != [] {
      IndicesAreNumbers(items[..|items| - 1]);
      var d := Digits(|items| - 1);
      assert IsDigit(d[0]) && !IsDigit("constructor"[0]);
    }
  }

  lemma NoConstructor(v: Value)
    requires !v.Obj?
    ensures "constructor" !in Properties(v)
  {
    match v
    case Arr(items) => IndicesAreNumbers(items);
    case Str(text) => IndicesAreNumbers(Characters(text));
    case _ =>
  }

  /** For all values: the order of two merges makes no difference exactly then. */
  lemma {:induction false} MergedAssociates(x: Value, y: Value, z: Value)
    ensures Merged(Merged(x, y), z) == Merged(x, Merged(y, z)) <==> Associates(x, y, z)
    decreases z
  {
    if !Plain(z) {
      NotPlainLast(x, y, z);
    } else if Plain(y) {
      FieldsMerge(Properties(x), y, z);
    } else if x.Arr? && y.Arr? {
      NoConstructor(y);
      ArraysBeforeObject(x.items, y.items, z);
    } else {
      PlainAfterOther(x, y, z);
    }
  }

  lemma NotPlainLast(x: Value, y: Value, z: Value)
    requires !Plain(z)
    ensures Merged(Merged(x, y), z) == Merged(x, Merged(y, z)) <==> Associates(x, y, z)
  {
    if z.Arr? && y.Arr? && x.Arr? {
      assert (x.items + y.items) + z.items == x.items + (y.items + z.items);
    } else if z.Arr? && x.Arr? && !y.Arr? {
      assert |x.items + z.items| == |x.items| + |z.items|;
      assert x.items == [] ==> x.items + z.items == z.items;
    }
  }

  lemma PlainAfterOther(x: Value, y: Value, z: Value)
    requires Plain(z) && !Plain(y) && !(x.Arr? && y.Arr?)
    ensures Merged(Merged(x, y), z) == Merged(x, Merged(y, z)) <==> Associates(x, y, z)
  {
    var w := Obj(MergedInto(Properties(y), z));
    assert Merged(Merged(x, y), z) == w == Merged(y, z);
    if !y.Obj? {
      NoConstructor(y);
      AbsorbedMeans(Properties(x), w);
    }
  }

  /** The same for all keys of two objects. */
  lemma {:induction false} FieldsMerge(fields: Fields, y: Value, z: Value)
    requires y.Obj? && z.Obj?
    ensures MergedInto(MergedInto(fields, y), z) == MergedInto(fields, Obj(MergedInto(y.fields, z)))
       <==> FieldsAssociate(fields, y, z)
    decreases z, 0
  {
    var left, right := MergedInto(MergedInto(fields, y), z), MergedInto(fields, Obj(MergedInto(y.fields, z)));
    assert left.Keys == right.Keys;
    forall k | k in left
      ensures left[k] == right[k] <==>
        (k in y.fields && k in z.fields ==> Associates(Get(fields, k), y.fields[k], z.fields[k]))
    {
      if k in y.fields && k in z.fields {
        MergedAssociates(Get(fields, k), y.fields[k], z.fields[k]);
      } else if k in z.fields {
        CopyIsSame(z.fields[k]);
      }
    }
    assert (forall k :: k in left ==> left[k] == right[k]) ==> left == right;
  }

  /** A merge whose first operand may have thrown. */
  function Then(m: Option<Fields>, object2: Value): Option<Fields> {
    match m
    case None => None
    case Some(fields) => SysMerge(Obj(fields), object2)
  }

  function Into(object1: Value, m: Option<Fields>): Option<Fields> {
    match m
    case None => None
    case Some(fields) => SysMerge(object1, Obj(fields))
  }

  /** From the left: an exception of either merge, or the result of both. */
  lemma FromTheLeft(a: Value, b: Value, c: Value)
    ensures var x, y, z := Properties(a), Obj(Properties(b)), Obj(Properties(c));
      Then(SysMerge(a, b), c) == if Throws(y) || Throws(z) then None else Some(MergedInto(MergedInto(x, y), z))
  {
  }

  lemma FromTheRight(a: Value, b: Value, c: Value)
    ensures var x, y, z := Properties(a), Obj(Properties(b)), Obj(Properties(c));
      Into(a, SysMerge(b, c))
      == if Throws(z) || NullKept(y.fields, z) then None else Some(MergedInto(x, Obj(MergedInto(y.fields, z))))
  {
    MergedThrows(Properties(b), Obj(Properties(c)));
  }

  /** Both orders, exceptions included: they agree if and only if both throw, or none does and the values associate. */
  lemma SysMergeAssociates(a: Value, b: Value, c: Value)
    ensures var y, z := Obj(Properties(b)), Obj(Properties(c));
      Then(SysMerge(a, b), c) == Into(a, SysMerge(b, c)) <==>
        || Throws(z)
        || (Throws(y) && NullKept(y.fields, z))
        || (!Throws(y) && !NullKept(y.fields, z) && FieldsAssociate(Properties(a), y, z))
  {
    FromTheLeft(a, b, c);
    FromTheRight(a, b, c);
    FieldsMerge(Properties(a), Obj(Properties(b)), Obj(Properties(c)));
  }

  // ------------------------------------------------------------------- same kinds

  /** Values that meet under one key are both objects, both arrays, or neither; and so are all that meet below them. */
  ghost predicate Compatible(x: Value, y: Value)
    decreases x
  {
    && (Plain(x) <==> Plain(y)) && (x.Arr? <==> y.Arr?)
    && (Plain(x) && Plain(y) ==> FieldsCompatible(x, y))
  }

  ghost predicate FieldsCompatible(x: Value, y: Value)
    requires x.Obj? && y.Obj?
    decreases x, 0
  {
    forall k :: k in x.fields && k in y.fields ==> Compatible(x.fields[k], y.fields[k])
  }

  lemma {:induction false} NothingAssociates(y: Value, z: Value)
    ensures Associates(Nullish, y, z)
    decreases z
  {
    if Plain(z) && Plain(y) {
      forall k | k in y.fields && k in z.fields
        ensures Associates(Nullish, y.fields[k], z.fields[k])
      {
        NothingAssociates(y.fields[k], z.fields[k]);
      }
    }
  }

  lemma {:induction false} CompatibleAssociate(x: Value, y: Value, z: Value)
    requires Compatible(x, y) && Compatible(y, z) && Compatible(x, z)
    ensures Associates(x, y, z)
    decreases z
  {
    if Plain(z) {
      CompatibleFields(x, y, z);
    }
  }

  lemma {:induction false} CompatibleFields(x: Value, y: Value, z: Value)
    requires x.Obj? && y.Obj? && z.Obj? && FieldsCompatible(x, y) && FieldsCompatible(y, z) && FieldsCompatible(x, z)
    ensures FieldsAssociate(x.fields, y, z)
    decreases z, 0
  {
    forall k | k in y.fields && k in z.fields
      ensures Associates(Get(x.fields, k), y.fields[k], z.fields[k])
    {
      if k in x.fields {
        CompatibleAssociate(x.fields[k], y.fields[k], z.fields[k]);
      } else {
        NothingAssociates(y.fields[k], z.fields[k]);
      }
    }
  }

  /** Merging what throws nowhere throws nowhere. */
  lemma {:induction false} NoNullKept(b: Value, c: Value)
    requires b.Obj? && c.Obj? && FieldsCompatible(b, c) && !Throws(b) && !Throws(c)
    ensures !NullKept(b.fields, c)
    decreases c
  {
    forall k | k in b.fields.Keys + c.fields.Keys ensures !NullKeptAt(b.fields, c, k) {
      if k in c.fields && Plain(c.fields[k]) {
        if k in b.fields {
          NoNullKept(b.fields[k], c.fields[k]);
        } else {
          NoNullInCopy(c.fields[k]);
        }
      }
    }
  }

  lemma {:induction false} NoNullInCopy(c: Value)
    requires c.Obj? && !Throws(c)
    ensures !NullKept(map[], c)
  {
    MergedThrows(map[], c);
    LeftIdentity(c);
  }

  /** When shared paths hold values of one kind, the order matters only for a null that the last object overwrites. */
  lemma MergeAssociates(a: Value, b: Value, c: Value)
    requires a.Obj? && b.Obj? && c.Obj? && FieldsCompatible(a, b) && FieldsCompatible(b, c) && FieldsCompatible(a, c)
    ensures Then(SysMerge(a, b), c) == Into(a, SysMerge(b, c)) <==> (Throws(b) ==> Throws(c) || NullKept(b.fields, c))
  {
    CompatibleFields(a, b, c);
    SysMergeAssociates(a, b, c);
    if !Throws(b) && !Throws(c) {
      NoNullKept(b, c);
    }
  }

  /** Such a null: merged first it throws, merged last it is gone. */
  lemma OverwrittenNull()
    ensures var a, b, c := Obj(map[]), Obj(map["k" := Nullish]), Obj(map["k" := Num(1)]);
            && FieldsCompatible(a, b) && FieldsCompatible(b, c) && FieldsCompatible(a, c)
            && Then(SysMerge(a, b), c) == None && Into(a, SysMerge(b, c)) == Some(map["k" := Num(1)])
  {
    var a, b, c := Obj(map[]), Obj(map["k" := Nullish]), Obj(map["k" := Num(1)]);
    assert b.fields["k"].Nullish? && c.fields["k"] == Num(1);
    assert Throws(b) && !Throws(c);
    assert MergedInto(b.fields, c) == c.fields;
    assert MergedInto(a.fields, c) == c.fields;
  }

  /** A scalar between two arrays makes a difference: it is overwritten first, or it breaks the append. */
  lemma MixedKindsDoNotAssociate()
    ensures var one, two, scalar: Value := Arr([Num(1)]), Arr([Num(2)]), Num(0);
            && Merged(Merged(one, scalar), two) == two && Merged(one, Merged(scalar, two)) == Arr([Num(1), Num(2)])
            && !Associates(one, scalar, two)
  {
  }

  /** So does an object behind two arrays: joined first they have two indices, one by one only the first. */
  lemma JoinedArraysDoNotAssociate()
    ensures var one, two, none := Arr([Num(1)]), Arr([Num(2)]), Obj(map[]);
            && Merged(Merged(one, two), none) == Obj(map["0" := Num(1), "1" := Num(2)])
            && Merged(one, Merged(two, none)) == Obj(map["0" := Num(2)])
            && !Associates(one, two, none)
  {
    var one, two, none := Arr([Num(1)]), Arr([Num(2)]), Obj(map[]);
    OneIndexed(Num(1));
    OneIndexed(Num(2));
    TwoIndexed(Num(1), Num(2));
    assert [Num(1)] + [Num(2)] == [Num(1), Num(2)];
    MergedAssociates(one, two, none);
  }

  lemma OneIndexed(x: Value)
    ensures Indexed([x]) == map["0" := x]
  {
    assert [x][..0] == [];
  }

  lemma TwoIndexed(x: Value, y: Value)
    ensures Indexed([x, y]) == map["0" := x, "1" := y]
  {
    assert [x, y][..1] == [x];
    OneIndexed(x);
    assert Digits(1) == "1";
  }
}
