/**
 * `pick`, `omit` and `isEqual` of `ObjectUtils`, on the JSON-like values of `Json`.
 */
module ObjectRecords {
  import opened Wrappers
  import opened Json
  import Text

  /**
   * `ObjectUtils.pick(obj, keys)`: a fresh object that receives, in the order of `keys`,
   * every requested key that `obj` has.
   */
  function Pick(props: seq<Prop>, keys: seq<string>): (r: seq<Prop>)
    ensures forall k :: Lookup(r, k) == (if k in keys then Lookup(props, k) else None)
  {
    if |keys| == 0 then []
    else
      var acc := Pick(props, keys[..|keys| - 1]);
      var k := keys[|keys| - 1];
      assert forall j :: j in keys <==> j in keys[..|keys| - 1] || j == k;
      match Lookup(props, k)
      case Some(v) => Put(acc, k, v)
      case None => acc
  }

  /** `ObjectUtils.omit(obj, keys)`: every own property of `obj` whose key is not listed. */
  function Omit(props: seq<Prop>, keys: seq<string>): (r: seq<Prop>)
    requires DistinctKeys(props)
    ensures forall k :: Lookup(r, k) == (if k in keys then None else Lookup(props, k))
    ensures forall i :: 0 <= i < |r| ==> r[i].key !in keys
  {
    if |props| == 0 then []
    else
      var init := props[..|props| - 1];
      var p := props[|props| - 1];
      OmitLookupLast(props);
      var acc := Omit(init, keys);
      if p.key in keys then acc
      else
        OmitKeep(props, keys, acc);
        Put(acc, p.key, p.val)
  }

  /** The step of `Omit` that copies the last property, whose key is not listed. */
  lemma OmitKeep(props: seq<Prop>, keys: seq<string>, acc: seq<Prop>)
    requires |props| > 0 && DistinctKeys(props) && props[|props| - 1].key !in keys
    requires forall k :: Lookup(acc, k) == (if k in keys then None else Lookup(props[..|props| - 1], k))
    requires forall i :: 0 <= i < |acc| ==> acc[i].key !in keys
    ensures var p := props[|props| - 1]; var r := Put(acc, p.key, p.val);
      && (forall k :: Lookup(r, k) == (if k in keys then None else Lookup(props, k)))
      && (forall i :: 0 <= i < |r| ==> r[i].key !in keys)
  {
    var p := props[|props| - 1];
    OmitLookupLast(props);
    OmitKeepKeys(acc, keys, p);
  }

  lemma OmitKeepKeys(acc: seq<Prop>, keys: seq<string>, p: Prop)
    requires p.key !in keys && forall i :: 0 <= i < |acc| ==> acc[i].key !in keys
    ensures var r := Put(acc, p.key, p.val); forall i :: 0 <= i < |r| ==> r[i].key !in keys
  {
    var r := Put(acc, p.key, p.val);
    forall i | 0 <= i < |r|
      ensures r[i].key !in keys
    {
      if r[i] != Prop(p.key, p.val) {
        var j :| 0 <= j < |acc| && acc[j] == r[i];
      }
    }
  }

  /** In an object, the last property is found under its key, the others in the prefix. */
  lemma OmitLookupLast(props: seq<Prop>)
    requires |props| > 0 && DistinctKeys(props)
    ensures DistinctKeys(props[..|props| - 1])
    ensures Lookup(props, props[|props| - 1].key) == Some(props[|props| - 1].val)
    ensures Lookup(props[..|props| - 1], props[|props| - 1].key) == None
    ensures forall k :: k != props[|props| - 1].key ==> Lookup(props, k) == Lookup(props[..|props| - 1], k)
  {
    var n := |props|;
    LookupAppend(props[..n - 1], props[n - 1]);
    assert props[..n - 1] + [props[n - 1]] == props;
    assert props[n - 1].key !in Keys(props[..n - 1]);
  }

  lemma {:induction false} LookupAppend(props: seq<Prop>, p: Prop)
    ensures forall k :: (Lookup(props + [p], k) ==
      if k in Keys(props) then Lookup(props, k) else if k == p.key then Some(p.val) else None)
  {
    if |props| > 0 {
      LookupAppend(props[1..], p);
      assert (props + [p])[1..] == props[1..] + [p];
      assert Keys(props) == [props[0].key] + Keys(props[1..]);
    }
  }

  /** Every level of `v` has distinct keys, as in every JavaScript value. */
  predicate WellFormed(v: Value)
    decreases v
  {
    match v
    case Arr(es) => forall i :: 0 <= i < |es| ==> WellFormed(es[i])
    case Obj(props) => DistinctKeys(props) && forall i :: 0 <= i < |props| ==> WellFormed(props[i].val)
    case _ => true
  }

  /**
   * `ObjectUtils.isEqual(a, b)`: equal primitives, or arrays and objects with the same
   * number of keys whose every key of `a` is a key of `b` holding an equal value. (The
   * identity short-cut `a === b` of two objects agrees with this structural answer.)
   */
  function IsEqual(a: Value, b: Value): (r: bool)
    ensures !IsObjectType(a) || !IsObjectType(b) ==> (r <==> a == b)
    ensures IsObjectType(a) && IsObjectType(b) && |KeysOf(a)| != |KeysOf(b)| ==> !r
    decreases Size(a), |KeysOf(a)| + 1
  {
    if !IsObjectType(a) || !IsObjectType(b) then a == b
    else |KeysOf(a)| == |KeysOf(b)| && KeysEqual(a, b, KeysOf(a))
  }

  /** The loop over the keys `ks` of `a`, stopping at the first mismatch. */
  function KeysEqual(a: Value, b: Value, ks: seq<string>): bool
    requires IsObjectType(a) && IsObjectType(b)
    requires forall k :: k in ks ==> k in KeysOf(a)
    decreases Size(a), |ks|
  {
    if |ks| == 0 then true
    else if ks[0] !in KeysOf(b) then false
    else
      GetSmaller(a, ks[0]);
      GetSmaller(b, ks[0]);
      IsEqual(Get(a, ks[0]).value, Get(b, ks[0]).value) && KeysEqual(a, b, ks[1..])
  }

  lemma {:induction false} KeysEqualIff(a: Value, b: Value, ks: seq<string>)
    requires IsObjectType(a) && IsObjectType(b)
    requires forall k :: k in ks ==> k in KeysOf(a)
    ensures KeysEqual(a, b, ks) <==>
      forall k :: k in ks ==> k in KeysOf(b) && Get(a, k).Some? && Get(b, k).Some? &&
                              IsEqual(Get(a, k).value, Get(b, k).value)
  {
    forall k | k in ks
      ensures Get(a, k).Some? && (k in KeysOf(b) ==> Get(b, k).Some?)
    {
      GetSmaller(a, k);
      if k in KeysOf(b) { GetSmaller(b, k); }
    }
    if |ks| > 0 {
      KeysEqualIff(a, b, ks[1..]);
    }
  }

  /** Every value is equal to itself (there is no NaN among the modelled numbers). */
  lemma {:induction false} IsEqualReflexive(a: Value)
    ensures IsEqual(a, a)
    decreases Size(a)
  {
    if IsObjectType(a) {
      forall k | k in KeysOf(a)
        ensures Get(a, k).Some? && IsEqual(Get(a, k).value, Get(a, k).value)
      {
        GetSmaller(a, k);
        IsEqualReflexive(Get(a, k).value);
      }
      KeysEqualIff(a, a, KeysOf(a));
    }
  }

  predicate Distinct(s: seq<string>)
  {
    forall i, j :: 0 <= i < j < |s| ==> s[i] != s[j]
  }

  lemma {:induction false} DistinctCard(s: seq<string>)
    requires Distinct(s)
    ensures |set x | x in s| == |s|
  {
    if |s| > 0 {
      var init := s[..|s| - 1];
      DistinctCard(init);
      assert (set x | x in s) == (set x | x in init) + {s[|s| - 1]};
      assert s[|s| - 1] !in init;
    }
  }

  lemma SubsetSameCard(a: set<string>, b: set<string>)
    requires a <= b && |a| == |b|
    ensures a == b
  {
    if a != b {
      assert !(b <= a);
      var x :| x in b && x !in a;
      assert a <= b - {x};
      assert |b - {x}| == |b| - 1;
      SubsetCard(a, b - {x});
    }
  }

  lemma {:induction false} SubsetCard(a: set<string>, b: set<string>)
    requires a <= b
    ensures |a| <= |b|
    decreases |b|
  {
    if a != {} {
      var x :| x in a;
      SubsetCard(a - {x}, b - {x});
    }
  }

  /** Two distinct key lists of equal length, one inside the other, hold the same keys. */
  lemma Pigeonhole(s: seq<string>, t: seq<string>)
    requires Distinct(s) && Distinct(t) && |s| == |t|
    requires forall x :: x in s ==> x in t
    ensures forall x :: x in t ==> x in s
  {
    DistinctCard(s);
    DistinctCard(t);
    var small, big := set x | x in s, set x | x in t;
    SubsetSameCard(small, big);
    forall x | x in t
      ensures x in s
    {
      assert x in big;
      assert x in small;
    }
  }

  lemma KeysOfDistinct(v: Value)
    requires WellFormed(v)
    ensures Distinct(KeysOf(v))
  {
    match v
    case Arr(es) =>
      forall i, j | 0 <= i < j < |es|
        ensures Text.NatToString(i) != Text.NatToString(j)
      {
        Text.ParseNatToString(i);
        Text.ParseNatToString(j);
      }
    case Obj(props) =>
    case _ =>
  }

  lemma WellFormedChild(v: Value, k: string)
    requires WellFormed(v) && IsObjectType(v) && Get(v, k).Some?
    ensures WellFormed(Get(v, k).value)
  {
    match v
    case Obj(props) => var i := LookupIndex(props, k);
    case Arr(es) =>
  }

  lemma {:induction false} IsEqualSymmetricStep(a: Value, b: Value)
    requires WellFormed(a) && WellFormed(b) && IsEqual(a, b)
    ensures IsEqual(b, a)
    decreases Size(a)
  {
    if IsObjectType(a) && IsObjectType(b) {
      KeysEqualIff(a, b, KeysOf(a));
      KeysOfDistinct(a);
      KeysOfDistinct(b);
      Pigeonhole(KeysOf(a), KeysOf(b));
      forall k | k in KeysOf(b)
        ensures k in KeysOf(a) && Get(b, k).Some? && Get(a, k).Some? &&
                IsEqual(Get(b, k).value, Get(a, k).value)
      {
        GetSmaller(a, k);
        WellFormedChild(a, k);
        WellFormedChild(b, k);
        IsEqualSymmetricStep(Get(a, k).value, Get(b, k).value);
      }
      KeysEqualIff(b, a, KeysOf(b));
    }
  }

  /** `isEqual` does not depend on the order of its arguments. */
  lemma IsEqualSymmetric(a: Value, b: Value)
    requires WellFormed(a) && WellFormed(b)
    ensures IsEqual(a, b) == IsEqual(b, a)
  {
    if IsEqual(a, b) { IsEqualSymmetricStep(a, b); }
    if IsEqual(b, a) { IsEqualSymmetricStep(b, a); }
  }
}
