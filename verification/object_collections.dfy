/**
 * `groupBy` and `sortBy` of `ObjectUtils`, over arrays of values whose `key` property is
 * read with JavaScript's `item[key]`.
 */
module ObjectCollections {
  import opened Wrappers
  import opened Json
  import Text

  // ---------------------------------------------------------------------------------------
  // groupBy
  // ---------------------------------------------------------------------------------------

  /**
   * The members every plain object inherits from `Object.prototype`: `result[name]` is
   * truthy for each of them, so `result[name].push(item)` throws.
   */
  const InheritedNames: set<string> := {
    "constructor", "hasOwnProperty", "isPrototypeOf", "propertyIsEnumerable", "toString",
    "valueOf", "toLocaleString", "__proto__", "__defineGetter__", "__defineSetter__",
    "__lookupGetter__", "__lookupSetter__"
  }

  /** `String(item[key])`; `None` when `item` is null and the read throws. */
  function GroupName(item: Value, key: string): (r: Option<string>)
    ensures r.None? <==> item.Null?
  {
    if item.Null? then None
    else match Get(item, key)
      case None => Some("undefined")
      case Some(v) => Some(ToJsString(v))
  }

  /** The items whose group name is `name`, in input order. */
  function Members(items: seq<Value>, key: string, name: string): seq<Value>
  {
    if |items| == 0 then []
    else
      var last := items[|items| - 1];
      Members(items[..|items| - 1], key, name) + (if GroupName(last, key) == Some(name) then [last] else [])
  }

  /** Every item can be read and its group name is not an inherited member. */
  predicate Groupable(items: seq<Value>, key: string)
  {
    forall i :: 0 <= i < |items| ==> GroupName(items[i], key).Some? && GroupName(items[i], key).value !in InheritedNames
  }

  /**
   * `ObjectUtils.groupBy(arr, key)`: one array per group name, holding that group's
   * items in input order; `Throws` when an item is null or a group name is inherited.
   */
  function GroupBy(items: seq<Value>, key: string): (r: Outcome<seq<Prop>>)
    ensures r.Ok? <==> Groupable(items, key)
    ensures r.Ok? ==> DistinctKeys(r.value)
  {
    if |items| == 0 then Ok([])
    else
      var init, last := items[..|items| - 1], items[|items| - 1];
      GroupableLast(items, key);
      match GroupBy(init, key)
      case Throws => Throws
      case Ok(acc) =>
        match GroupName(last, key)
        case None => Throws
        case Some(name) =>
          if name in InheritedNames then Throws
          else Ok(AddMember(acc, name, last))
  }

  /** `result[name] ||= []; result[name].push(item)`, on an object of arrays. */
  function AddMember(acc: seq<Prop>, name: string, item: Value): (r: seq<Prop>)
    ensures DistinctKeys(acc) ==> DistinctKeys(r)
    ensures Total(r) == Total(acc) + 1
    ensures Lookup(r, name) == Some(Arr(GroupOf(acc, name) + [item]))
    ensures forall other :: other != name ==> Lookup(r, other) == Lookup(acc, other)
  {
    var v := Arr(GroupOf(acc, name) + [item]);
    PutDistinct(acc, name, v);
    PutTotal(acc, name, v);
    Put(acc, name, v)
  }

  /** The array stored under `name`, or none yet. */
  function GroupOf(acc: seq<Prop>, name: string): seq<Value>
  {
    match Lookup(acc, name)
    case Some(Arr(es)) => es
    case _ => []
  }

  /**
   * The group `name` of `groupBy` holds exactly the items whose group name is `name`, in
   * input order, and there is no group without a member.
   */
  lemma {:induction false} GroupByGroups(items: seq<Value>, key: string, name: string)
    requires GroupBy(items, key).Ok?
    ensures Lookup(GroupBy(items, key).value, name) ==
      (if Members(items, key, name) == [] then None else Some(Arr(Members(items, key, name))))
  {
    if |items| > 0 {
      var init, last := items[..|items| - 1], items[|items| - 1];
      GroupableLast(items, key);
      var acc, nm := GroupBy(init, key).value, GroupName(last, key).value;
      assert GroupBy(items, key).value == AddMember(acc, nm, last);
      GroupByGroups(init, key, name);
      if name == nm {
        assert Members(items, key, name) == Members(init, key, name) + [last];
        assert GroupOf(acc, name) == Members(init, key, name);
      } else {
        assert Members(items, key, name) == Members(init, key, name);
      }
    }
  }

  lemma GroupableLast(items: seq<Value>, key: string)
    requires |items| > 0
    ensures Groupable(items, key) <==>
      Groupable(items[..|items| - 1], key) && GroupName(items[|items| - 1], key).Some? &&
      GroupName(items[|items| - 1], key).value !in InheritedNames
  {
    var init := items[..|items| - 1];
    assert forall i :: 0 <= i < |init| ==> init[i] == items[i];
  }

  /** Every member of a group is an input item whose group name is that group's. */
  lemma {:induction false} MembersBelong(items: seq<Value>, key: string, name: string, x: Value)
    requires x in Members(items, key, name)
    ensures x in items && GroupName(x, key) == Some(name)
  {
    var init := items[..|items| - 1];
    if x in Members(init, key, name) {
      MembersBelong(init, key, name, x);
    }
  }

  /** Every item is a member of the group its own name designates. */
  lemma {:induction false} MembersComplete(items: seq<Value>, key: string, i: nat)
    requires i < |items| && GroupName(items[i], key).Some?
    ensures items[i] in Members(items, key, GroupName(items[i], key).value)
  {
    var init := items[..|items| - 1];
    if i < |items| - 1 {
      MembersComplete(init, key, i);
    }
  }

  /** The number of grouped items stored in an object of arrays. */
  function Total(props: seq<Prop>): nat
  {
    if |props| == 0 then 0 else Weight(Some(props[0].val)) + Total(props[1..])
  }

  function Weight(o: Option<Value>): nat
  {
    match o
    case Some(Arr(es)) => |es|
    case _ => 0
  }

  lemma {:induction false} PutTotal(props: seq<Prop>, k: string, v: Value)
    ensures Total(Put(props, k, v)) + Weight(Lookup(props, k)) == Total(props) + Weight(Some(v))
  {
    if |props| > 0 && props[0].key != k {
      PutTotal(props[1..], k, v);
      var r := Put(props, k, v);
      assert r[1..] == Put(props[1..], k, v);
    } else if |props| > 0 {
      assert Put(props, k, v)[1..] == props[1..];
    }
  }

  /** The group sizes add up to the number of items: no item is lost or duplicated. */
  lemma {:induction false} GroupBySizes(items: seq<Value>, key: string)
    requires GroupBy(items, key).Ok?
    ensures Total(GroupBy(items, key).value) == |items|
  {
    if |items| > 0 {
      GroupBySizes(items[..|items| - 1], key);
    }
  }

  // ---------------------------------------------------------------------------------------
  // sortBy
  // ---------------------------------------------------------------------------------------

  /** `ToPrimitive` of a property value: arrays and objects become their strings. */
  function Primitive(v: Value): (r: Value)
    ensures !IsObjectType(r)
  {
    match v
    case Arr(_) => Str(ToJsString(v))
    case Obj(_) => Str("[object Object]")
    case _ => v
  }

  /**
   * `Number(s)` for a string: blank is 0, an optionally signed run of decimal digits is
   * its value, anything else is `NaN` (`None`).
   */
  function StringToNumber(s: string): (r: Option<int>)
    ensures Text.Trim(s) == "" ==> r == Some(0)
  {
    var t := Text.Trim(s);
    if t == "" then Some(0)
    else if Text.AllDigits(t) then Some(Text.ParseDigits(t))
    else if |t| > 1 && t[0] == '-' && Text.AllDigits(t[1..]) then Some(0 - Text.ParseDigits(t[1..]))
    else if |t| > 1 && t[0] == '+' && Text.AllDigits(t[1..]) then Some(Text.ParseDigits(t[1..]))
    else None
  }

  /** `Number(x)` of a property read; `undefined` (`None`) is `NaN`. */
  function ToNumber(x: Option<Value>): Option<int>
  {
    match x
    case None => None
    case Some(v) =>
      match Primitive(v)
      case Null => Some(0)
      case Bool(b) => Some(if b then 1 else 0)
      case Int(i) => Some(i)
      case Str(s) => StringToNumber(s)
      case _ => None
  }

  /** JavaScript's `x < y`: two strings compare lexicographically, the rest as numbers. */
  predicate LessThan(x: Option<Value>, y: Option<Value>)
  {
    if x.Some? && y.Some? && Primitive(x.value).Str? && Primitive(y.value).Str? then
      Text.LexLess(Primitive(x.value).s, Primitive(y.value).s)
    else
      ToNumber(x).Some? && ToNumber(y).Some? && ToNumber(x).value < ToNumber(y).value
  }

  lemma LessThanIrreflexive(x: Option<Value>)
    ensures !LessThan(x, x)
  {
    if x.Some? && Primitive(x.value).Str? { Text.LexLessIrreflexive(Primitive(x.value).s); }
  }

  lemma LessThanAsymmetric(x: Option<Value>, y: Option<Value>)
    ensures !(LessThan(x, y) && LessThan(y, x))
  {
    if x.Some? && y.Some? && Primitive(x.value).Str? && Primitive(y.value).Str? {
      Text.LexLessTotal(Primitive(x.value).s, Primitive(y.value).s);
    }
  }

  /** The comparator handed to `Array.prototype.sort`, for the direction `asc` or `desc`. */
  function Compare(a: Value, b: Value, key: string, asc: bool): (r: int)
    ensures -1 <= r <= 1
    ensures r == 0 <==> !LessThan(Get(a, key), Get(b, key)) && !LessThan(Get(b, key), Get(a, key))
    ensures r < 0 <==> (if asc then LessThan(Get(a, key), Get(b, key)) else LessThan(Get(b, key), Get(a, key)))
  {
    LessThanAsymmetric(Get(a, key), Get(b, key));
    if LessThan(Get(a, key), Get(b, key)) then (if asc then -1 else 1)
    else if LessThan(Get(b, key), Get(a, key)) then (if asc then 1 else -1)
    else 0
  }

  /** Swapping the arguments of the comparator negates its answer. */
  lemma CompareAntisymmetric(a: Value, b: Value, key: string, asc: bool)
    ensures Compare(a, b, key, asc) == -Compare(b, a, key, asc)
  {
    LessThanAsymmetric(Get(a, key), Get(b, key));
  }

  /** The comparator of `sortBy`, as handed to `Array.prototype.sort`. */
  function Comparator(key: string, asc: bool): (Value, Value) -> int
  {
    (a: Value, b: Value) => Compare(a, b, key, asc)
  }

  /**
   * Stable insertion of `x` behind a sorted prefix: `x` moves in front of exactly the
   * trailing elements the comparator puts after it.
   */
  function Insert<T>(s: seq<T>, x: T, cmp: (T, T) -> int): (r: seq<T>)
    ensures multiset(r) == multiset(s) + multiset{x}
  {
    if |s| == 0 then [x]
    else
      var init, last := s[..|s| - 1], s[|s| - 1];
      assert s == init + [last];
      if cmp(last, x) > 0 then Insert(init, x, cmp) + [last]
      else s + [x]
  }

  /** A stable sort with the comparator `cmp`. */
  function Sort<T>(items: seq<T>, cmp: (T, T) -> int): (r: seq<T>)
    ensures multiset(r) == multiset(items)
  {
    if |items| == 0 then []
    else
      assert items == items[..|items| - 1] + [items[|items| - 1]];
      Insert(Sort(items[..|items| - 1], cmp), items[|items| - 1], cmp)
  }

  /**
   * `ObjectUtils.sortBy(arr, key, direction)` on a copy of `arr`: with two or more items
   * every item is read, so a null item throws; a shorter array is returned as it is.
   */
  function SortBy(items: seq<Value>, key: string, asc: bool): (r: Outcome<seq<Value>>)
    ensures r.Throws? <==> |items| >= 2 && Null in items
    ensures r.Ok? ==> multiset(r.value) == multiset(items)
  {
    if |items| < 2 then Ok(items)
    else if Null in items then Throws
    else Ok(Sort(items, Comparator(key, asc)))
  }

  /** No pair of elements is out of order for the comparator. */
  ghost predicate Sorted<T>(s: seq<T>, cmp: (T, T) -> int)
  {
    forall i, j :: 0 <= i < j < |s| ==> cmp(s[i], s[j]) <= 0
  }

  /**
   * `cmp` is a consistent comparator on the values of `pool`: "not after" is transitive,
   * and of two elements one is not after the other.
   */
  ghost predicate Consistent<T>(pool: seq<T>, cmp: (T, T) -> int)
  {
    (forall a, b :: a in pool && b in pool && cmp(a, b) > 0 ==> cmp(b, a) <= 0) &&
    (forall a, b, c :: (a in pool && b in pool && c in pool &&
      cmp(a, b) <= 0 && cmp(b, c) <= 0) ==> cmp(a, c) <= 0)
  }

  lemma {:induction false} InsertSorted<T>(s: seq<T>, x: T, cmp: (T, T) -> int, pool: seq<T>)
    requires Sorted(s, cmp) && Consistent(pool, cmp)
    requires x in pool && forall i :: 0 <= i < |s| ==> s[i] in pool
    ensures Sorted(Insert(s, x, cmp), cmp)
  {
    if |s| > 0 {
      var init, last := s[..|s| - 1], s[|s| - 1];
      if cmp(last, x) > 0 {
        assert forall i :: 0 <= i < |init| ==> init[i] == s[i];
        InsertSorted(init, x, cmp, pool);
        InsertBelow(init, x, last, cmp);
        SortedSnoc(Insert(init, x, cmp), last, cmp);
      } else {
        forall i | 0 <= i < |s|
          ensures cmp(s[i], x) <= 0
        {
          if i < |s| - 1 {
            assert cmp(s[i], last) <= 0;
          }
        }
        SortedSnoc(s, x, cmp);
      }
    }
  }

  /** Inserting an element that is not after `y` keeps every element not after `y`. */
  lemma InsertBelow<T>(s: seq<T>, x: T, y: T, cmp: (T, T) -> int)
    requires cmp(x, y) <= 0
    requires forall j :: 0 <= j < |s| ==> cmp(s[j], y) <= 0
    ensures forall i :: 0 <= i < |Insert(s, x, cmp)| ==> cmp(Insert(s, x, cmp)[i], y) <= 0
  {
    var r := Insert(s, x, cmp);
    forall i | 0 <= i < |r|
      ensures cmp(r[i], y) <= 0
    {
      assert r[i] in multiset(r);
      if r[i] != x {
        var j :| 0 <= j < |s| && s[j] == r[i];
      }
    }
  }

  lemma SortedSnoc<T>(s: seq<T>, y: T, cmp: (T, T) -> int)
    requires Sorted(s, cmp)
    requires forall i :: 0 <= i < |s| ==> cmp(s[i], y) <= 0
    ensures Sorted(s + [y], cmp)
  {
    var r := s + [y];
    forall i, j | 0 <= i < j < |r|
      ensures cmp(r[i], r[j]) <= 0
    {
      if j < |s| {
        assert r[i] == s[i] && r[j] == s[j];
      }
    }
  }

  lemma {:induction false} SortSorted<T>(items: seq<T>, cmp: (T, T) -> int, pool: seq<T>)
    requires Consistent(pool, cmp)
    requires forall i :: 0 <= i < |items| ==> items[i] in pool
    ensures Sorted(Sort(items, cmp), cmp)
  {
    if |items| > 0 {
      var init := items[..|items| - 1];
      SortSorted(init, cmp, pool);
      var s := Sort(init, cmp);
      forall i | 0 <= i < |s|
        ensures s[i] in pool
      {
        assert s[i] in multiset(init);
      }
      InsertSorted(s, items[|items| - 1], cmp, pool);
    }
  }

  /** Every item's `key` is a number, or every item's `key` is a string. */
  predicate UniformKeys(items: seq<Value>, key: string)
  {
    (forall i :: 0 <= i < |items| ==> Get(items[i], key).Some? && Get(items[i], key).value.Int?) ||
    (forall i :: 0 <= i < |items| ==> Get(items[i], key).Some? && Get(items[i], key).value.Str?)
  }

  lemma UniformConsistent(items: seq<Value>, key: string, asc: bool)
    requires UniformKeys(items, key)
    ensures Consistent(items, Comparator(key, asc))
  {
    var cmp := Comparator(key, asc);
    forall a, b | a in items && b in items && cmp(a, b) > 0
      ensures cmp(b, a) <= 0
    {
      CompareAntisymmetric(a, b, key, asc);
    }
    forall a, b, c | a in items && b in items && c in items && cmp(a, b) <= 0 && cmp(b, c) <= 0
      ensures cmp(a, c) <= 0
    {
      CompareTransitive(a, b, c, key, asc, items);
    }
  }

  lemma CompareTransitive(a: Value, b: Value, c: Value, key: string, asc: bool, items: seq<Value>)
    requires UniformKeys(items, key) && a in items && b in items && c in items
    requires Compare(a, b, key, asc) <= 0 && Compare(b, c, key, asc) <= 0
    ensures Compare(a, c, key, asc) <= 0
  {
    var ka, kb, kc := Get(a, key), Get(b, key), Get(c, key);
    if ka.value.Str? && kb.value.Str? && kc.value.Str? {
      var s, t, u := ka.value.s, kb.value.s, kc.value.s;
      Text.LexLessTotal(s, t);
      Text.LexLessTotal(t, u);
      Text.LexLessTotal(s, u);
      if asc && Text.LexLess(u, s) {
        if Text.LexLess(t, s) { Text.LexLessTransitive(u, t, s); }
        else if t != s { Text.LexLessTransitive(u, s, t); }
      }
      if !asc && Text.LexLess(s, u) {
        if Text.LexLess(s, t) { Text.LexLessTransitive(s, t, u); }
        else if t != s { Text.LexLessTransitive(t, s, u); }
      }
    }
  }

  /**
   * When all sort keys are numbers, or all are strings, the result of `sortBy` is ordered
   * by key in the requested direction.
   */
  lemma SortByOrdered(items: seq<Value>, key: string, asc: bool)
    requires SortBy(items, key, asc).Ok? && UniformKeys(items, key)
    ensures Sorted(SortBy(items, key, asc).value, Comparator(key, asc))
  {
    if |items| >= 2 {
      UniformConsistent(items, key, asc);
      SortSorted(items, Comparator(key, asc), items);
    }
  }

  /** The elements of `s` whose class under `f` is `k`, in order. */
  ghost function WithKey<T, K>(s: seq<T>, f: T -> K, k: K): seq<T>
  {
    if |s| == 0 then [] else WithKey(s[..|s| - 1], f, k) + Keep(s[|s| - 1], f, k)
  }

  ghost function Keep<T, K>(y: T, f: T -> K, k: K): seq<T>
  {
    if f(y) == k then [y] else []
  }

  lemma WithKeySnoc<T, K>(s: seq<T>, y: T, f: T -> K, k: K)
    ensures WithKey(s + [y], f, k) == WithKey(s, f, k) + Keep(y, f, k)
  {
    assert (s + [y])[..|s|] == s;
  }

  /** `cmp` answers 0 on elements of the same class under `f`. */
  ghost predicate TiesOn<T(!new), K>(cmp: (T, T) -> int, f: T -> K)
  {
    forall a, b :: f(a) == f(b) ==> cmp(a, b) == 0
  }

  lemma {:induction false} InsertStable<T(!new), K>(s: seq<T>, x: T, cmp: (T, T) -> int, f: T -> K, k: K)
    requires TiesOn(cmp, f)
    ensures WithKey(Insert(s, x, cmp), f, k) == WithKey(s, f, k) + Keep(x, f, k)
  {
    if |s| > 0 {
      var init, last := s[..|s| - 1], s[|s| - 1];
      if cmp(last, x) > 0 {
        InsertStable(init, x, cmp, f, k);
        WithKeySnoc(Insert(init, x, cmp), last, f, k);
        assert Keep(x, f, k) == [] || Keep(last, f, k) == [];
        assert Keep(x, f, k) + Keep(last, f, k) == Keep(last, f, k) + Keep(x, f, k);
      } else {
        WithKeySnoc(s, x, f, k);
      }
    }
  }

  lemma {:induction false} SortStable<T(!new), K>(items: seq<T>, cmp: (T, T) -> int, f: T -> K, k: K)
    requires TiesOn(cmp, f)
    ensures WithKey(Sort(items, cmp), f, k) == WithKey(items, f, k)
  {
    if |items| > 0 {
      var init := items[..|items| - 1];
      SortStable(init, cmp, f, k);
      InsertStable(Sort(init, cmp), items[|items| - 1], cmp, f, k);
    }
  }

  /** The property read `item[key]`. */
  function KeyReader(key: string): Value -> Option<Value>
  {
    (item: Value) => Get(item, key)
  }

  /**
   * `sortBy` is stable: the items sharing a key value keep their input order, for any
   * keys (the comparator answers 0 on equal keys).
   */
  lemma SortByStable(items: seq<Value>, key: string, asc: bool, k: Option<Value>)
    requires SortBy(items, key, asc).Ok?
    ensures WithKey(SortBy(items, key, asc).value, KeyReader(key), k) == WithKey(items, KeyReader(key), k)
  {
    if |items| >= 2 {
      forall a, b | KeyReader(key)(a) == KeyReader(key)(b)
        ensures Comparator(key, asc)(a, b) == 0
      {
        LessThanIrreflexive(Get(a, key));
      }
      SortStable(items, Comparator(key, asc), KeyReader(key), k);
    }
  }
}
