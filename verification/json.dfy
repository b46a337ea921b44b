/**
 * JavaScript values as the utilities see them: JSON-like trees whose objects keep their
 * properties in enumeration order. Property reads follow JavaScript's `v[k]` on own
 * properties (arrays and strings also answer `length` and canonical index keys).
 */
module Json {
  import opened Wrappers
  import Text

  datatype Value =
    | Null
    | Bool(b: bool)
    | Int(i: int)
    | Str(s: string)
    | Arr(elems: seq<Value>)
    | Obj(props: seq<Prop>)

  /** One own property of an object. */
  datatype Prop = Prop(key: string, val: Value)

  function Keys(props: seq<Prop>): (ks: seq<string>)
    ensures |ks| == |props|
    ensures forall i :: 0 <= i < |props| ==> ks[i] == props[i].key
  {
    seq(|props|, i requires 0 <= i < |props| => props[i].key)
  }

  /** No key occurs twice, as in every JavaScript object. */
  predicate DistinctKeys(props: seq<Prop>)
  {
    forall i, j :: 0 <= i < j < |props| ==> props[i].key != props[j].key
  }

  /** `obj[k]` on a plain object: the value of the first property named `k`. */
  function Lookup(props: seq<Prop>, k: string): (r: Option<Value>)
    ensures r.Some? <==> k in Keys(props)
  {
    if |props| == 0 then None
    else if props[0].key == k then Some(props[0].val)
    else
      assert Keys(props) == [props[0].key] + Keys(props[1..]);
      Lookup(props[1..], k)
  }

  /** In an object with distinct keys, looking up the key of the i-th property finds its value. */
  lemma {:induction false} LookupAt(props: seq<Prop>, i: nat)
    requires DistinctKeys(props) && i < |props|
    ensures Lookup(props, props[i].key) == Some(props[i].val)
  {
    if i > 0 {
      assert props[0].key != props[i].key;
      assert props[1..][i - 1] == props[i];
      LookupAt(props[1..], i - 1);
    }
  }

  lemma KeysCons(p: Prop, rest: seq<Prop>)
    ensures Keys([p] + rest) == [p.key] + Keys(rest)
  {
    assert ([p] + rest)[1..] == rest;
  }

  /** Looking up in an object whose first property is `p`. */
  lemma LookupCons(p: Prop, rest: seq<Prop>)
    ensures forall j :: Lookup([p] + rest, j) == if p.key == j then Some(p.val) else Lookup(rest, j)
  {
    assert ([p] + rest)[0] == p;
    assert ([p] + rest)[1..] == rest;
  }

  /** Properties drawn from the tail of `props` (or `q`) still come from `props` once its head is put back. */
  lemma PropsCons(props: seq<Prop>, rest: seq<Prop>, q: Prop)
    requires |props| > 0
    requires forall i :: 0 <= i < |rest| ==> rest[i] in props[1..] || rest[i] == q
    ensures forall i :: 0 <= i < |rest| + 1 ==> ([props[0]] + rest)[i] in props || ([props[0]] + rest)[i] == q
  {
    var r := [props[0]] + rest;
    forall i | 0 <= i < |r|
      ensures r[i] in props || r[i] == q
    {
      if i > 0 && rest[i - 1] in props[1..] {
        var j :| 0 <= j < |props| - 1 && props[1..][j] == rest[i - 1];
        assert props[j + 1] == r[i];
      }
    }
  }

  /** What `obj[k] = v` promises of the properties `r` it leaves, for the object `props`. */
  ghost predicate PutResult(props: seq<Prop>, k: string, v: Value, r: seq<Prop>)
  {
    && Lookup(r, k) == Some(v)
    && (forall j :: j != k ==> Lookup(r, j) == Lookup(props, j))
    && (k in Keys(props) ==> Keys(r) == Keys(props))
    && (k !in Keys(props) ==> r == props + [Prop(k, v)])
    && (forall i :: 0 <= i < |r| ==> r[i] in props || r[i] == Prop(k, v))
  }

  /** `obj[k] = v`: an existing property keeps its place, a new one goes last. */
  function Put(props: seq<Prop>, k: string, v: Value): (r: seq<Prop>)
    ensures Lookup(r, k) == Some(v)
    ensures forall j :: j != k ==> Lookup(r, j) == Lookup(props, j)
    ensures k in Keys(props) ==> Keys(r) == Keys(props)
    ensures k !in Keys(props) ==> r == props + [Prop(k, v)]
    ensures forall i :: 0 <= i < |r| ==> r[i] in props || r[i] == Prop(k, v)
  {
    if |props| == 0 then
      LookupCons(Prop(k, v), []);
      [Prop(k, v)]
    else if props[0].key == k then
      PutHere(props, k, v);
      [Prop(k, v)] + props[1..]
    else
      var rest := Put(props[1..], k, v);
      PutBehind(props, k, v, rest);
      [props[0]] + rest
  }

  lemma PutHere(props: seq<Prop>, k: string, v: Value)
    requires |props| > 0 && props[0].key == k
    ensures PutResult(props, k, v, [Prop(k, v)] + props[1..])
  {
    var r := [Prop(k, v)] + props[1..];
    assert r[1..] == props[1..];
    assert Keys(props)[0] == k;
    assert Keys(r) == Keys(props);
    forall i | 0 < i < |r|
      ensures r[i] in props
    {
      assert r[i] == props[i];
    }
  }

  lemma PutBehind(props: seq<Prop>, k: string, v: Value, rest: seq<Prop>)
    requires |props| > 0 && props[0].key != k
    requires PutResult(props[1..], k, v, rest)
    ensures PutResult(props, k, v, [props[0]] + rest)
  {
    var head := props[0];
    assert props == [head] + props[1..];
    LookupCons(head, props[1..]);
    KeysCons(head, props[1..]);
    LookupCons(head, rest);
    KeysCons(head, rest);
    assert k !in Keys(props) ==> [head] + rest == props + [Prop(k, v)];
    PropsCons(props, rest, Prop(k, v));
  }

  /**
   * `Object.assign(acc, src)` and the spread `{...acc, ...src}`: each property of `src`,
   * in order, written into `acc`. Keys `src` lacks keep their value; keys it has take
   * its value.
   */
  function Assign(acc: seq<Prop>, src: seq<Prop>): (r: seq<Prop>)
    ensures forall i :: 0 <= i < |r| ==> r[i] in acc || r[i] in src
    ensures forall k :: k !in Keys(src) ==> Lookup(r, k) == Lookup(acc, k)
    ensures DistinctKeys(src) ==> forall k :: k in Keys(src) ==> Lookup(r, k) == Lookup(src, k)
    decreases |src|
  {
    if |src| == 0 then acc
    else
      var next := Put(acc, src[0].key, src[0].val);
      var r := Assign(next, src[1..]);
      AssignMembers(acc, src, next, r);
      AssignOutside(acc, src, next, r);
      AssignInside(acc, src, next, r);
      r
  }

  lemma AssignMembers(acc: seq<Prop>, src: seq<Prop>, next: seq<Prop>, r: seq<Prop>)
    requires |src| > 0 && next == Put(acc, src[0].key, src[0].val)
    requires forall i :: 0 <= i < |r| ==> r[i] in next || r[i] in src[1..]
    ensures forall i :: 0 <= i < |r| ==> r[i] in acc || r[i] in src
  {
    forall i | 0 <= i < |r|
      ensures r[i] in acc || r[i] in src
    {
      if r[i] in src[1..] {
        InTail(src, r[i]);
      } else {
        var j :| 0 <= j < |next| && next[j] == r[i];
        if next[j] !in acc {
          assert r[i] == src[0];
        }
      }
    }
  }

  lemma AssignOutside(acc: seq<Prop>, src: seq<Prop>, next: seq<Prop>, r: seq<Prop>)
    requires |src| > 0 && next == Put(acc, src[0].key, src[0].val)
    requires forall k :: k !in Keys(src[1..]) ==> Lookup(r, k) == Lookup(next, k)
    ensures forall k :: k !in Keys(src) ==> Lookup(r, k) == Lookup(acc, k)
  {
    forall k | k !in Keys(src)
      ensures Lookup(r, k) == Lookup(acc, k)
    {
      assert Keys(src)[0] == src[0].key;
      if k in Keys(src[1..]) {
        KeysTail(src, k);
      }
    }
  }

  lemma InTail<T>(s: seq<T>, x: T)
    requires |s| > 0 && x in s[1..]
    ensures x in s
  {
    var j :| 0 <= j < |s| - 1 && s[1..][j] == x;
    assert s[j + 1] == x;
  }

  /** A key of the rest of an object is a key of the object. */
  lemma KeysTail(src: seq<Prop>, k: string)
    requires |src| > 0 && k in Keys(src[1..])
    ensures k in Keys(src)
  {
    var i :| 0 <= i < |src| - 1 && Keys(src[1..])[i] == k;
    assert Keys(src)[i + 1] == k;
  }

  lemma AssignInside(acc: seq<Prop>, src: seq<Prop>, next: seq<Prop>, r: seq<Prop>)
    requires |src| > 0 && next == Put(acc, src[0].key, src[0].val)
    requires forall k :: k !in Keys(src[1..]) ==> Lookup(r, k) == Lookup(next, k)
    requires DistinctKeys(src[1..]) ==> forall k :: k in Keys(src[1..]) ==> Lookup(r, k) == Lookup(src[1..], k)
    ensures DistinctKeys(src) ==> forall k :: k in Keys(src) ==> Lookup(r, k) == Lookup(src, k)
  {
    if DistinctKeys(src) {
      var head, tail := src[0], src[1..];
      HeadKeyFresh(src);
      forall k | k in Keys(src)
        ensures Lookup(r, k) == Lookup(src, k)
      {
        LookupHead(src, k);
        if k != head.key {
          KeysHead(src, k);
        }
      }
    }
  }

  /** In an object with distinct keys, the first key does not recur and the rest stay distinct. */
  lemma HeadKeyFresh(src: seq<Prop>)
    requires |src| > 0 && DistinctKeys(src)
    ensures src[0].key !in Keys(src[1..]) && DistinctKeys(src[1..])
  {
    var tail := src[1..];
    forall i | 0 <= i < |tail|
      ensures Keys(tail)[i] != src[0].key
    {
      assert tail[i] == src[i + 1];
    }
  }

  /** `obj[k]` reads the first property, or else the rest of the object. */
  lemma LookupHead(src: seq<Prop>, k: string)
    requires |src| > 0
    ensures Lookup(src, k) == if src[0].key == k then Some(src[0].val) else Lookup(src[1..], k)
  {
  }

  /** A key other than the first is a key of the rest. */
  lemma KeysHead(src: seq<Prop>, k: string)
    requires |src| > 0 && k in Keys(src) && k != src[0].key
    ensures k in Keys(src[1..])
  {
    var i :| 0 <= i < |src| && Keys(src)[i] == k;
    assert Keys(src[1..])[i - 1] == k;
  }


  /** Writing a property keeps the keys of an object distinct. */
  lemma PutDistinct(props: seq<Prop>, k: string, v: Value)
    ensures DistinctKeys(props) ==> DistinctKeys(Put(props, k, v))
  {
    var r := Put(props, k, v);
    if DistinctKeys(props) && k in Keys(props) {
      assert Keys(r) == Keys(props);
      forall i, j | 0 <= i < j < |r|
        ensures r[i].key != r[j].key
      {
        assert r[i].key == Keys(r)[i] && r[j].key == Keys(r)[j];
      }
    }
  }

  /** A second write to the same key overrides the first in place. */
  lemma {:induction false} PutPut(props: seq<Prop>, k: string, v: Value, w: Value)
    ensures Put(Put(props, k, v), k, w) == Put(props, k, w)
  {
    if |props| > 0 && props[0].key != k {
      PutPut(props[1..], k, v, w);
      assert (([props[0]] + Put(props[1..], k, v)))[1..] == Put(props[1..], k, v);
    }
  }

  /** `delete obj[k]`. */
  function Delete(props: seq<Prop>, k: string): (r: seq<Prop>)
    ensures Lookup(r, k) == None
    ensures forall j :: j != k ==> Lookup(r, j) == Lookup(props, j)
  {
    if |props| == 0 then []
    else if props[0].key == k then Delete(props[1..], k)
    else
      var rest := Delete(props[1..], k);
      assert ([props[0]] + rest)[1..] == rest;
      [props[0]] + rest
  }

  /** Writing back the value a key already holds changes nothing. */
  lemma {:induction false} PutSame(props: seq<Prop>, k: string)
    requires Lookup(props, k).Some?
    ensures Put(props, k, Lookup(props, k).value) == props
  {
    if props[0].key != k {
      PutSame(props[1..], k);
    }
  }

  /** JavaScript truthiness (there is no NaN among the modelled numbers). */
  predicate Truthy(v: Value)
  {
    match v
    case Null => false
    case Bool(b) => b
    case Int(i) => i != 0
    case Str(s) => s != ""
    case Arr(_) => true
    case Obj(_) => true
  }

  /** `typeof v === 'object' && v !== null`. */
  predicate IsObjectType(v: Value)
  {
    v.Arr? || v.Obj?
  }

  /** The canonical array index a key denotes, as in `"3"` but not `"03"` or `"3.0"`. */
  function CanonicalIndex(k: string): (r: Option<nat>)
    ensures r.Some? ==> k == Text.NatToString(r.value)
  {
    if k != "" && Text.AllDigits(k) && Text.NatToString(Text.ParseDigits(k)) == k
    then Some(Text.ParseDigits(k))
    else None
  }

  lemma IndexKey(i: nat)
    ensures CanonicalIndex(Text.NatToString(i)) == Some(i)
  {
    Text.ParseNatToString(i);
  }

  /**
   * The property read `v[k]` on a non-null value: own properties of objects, `length` and
   * in-range indices of arrays and strings; inherited members are not modelled.
   */
  function Get(v: Value, k: string): (r: Option<Value>)
    ensures r.Some? && IsObjectType(r.value) ==> IsObjectType(v)
    ensures r.Some? && v.Arr? && k != "length" ==>
      CanonicalIndex(k).Some? && CanonicalIndex(k).value < |v.elems|
  {
    match v
    case Obj(props) => Lookup(props, k)
    case Arr(es) =>
      if k == "length" then Some(Int(|es|))
      else (match CanonicalIndex(k)
            case Some(i) => if i < |es| then Some(es[i]) else None
            case None => None)
    case Str(s) =>
      if k == "length" then Some(Int(|s|))
      else (match CanonicalIndex(k)
            case Some(i) => if i < |s| then Some(Str([s[i]])) else None
            case None => None)
    case _ => None
  }

  /** `Object.keys(v)` for arrays and objects. */
  function KeysOf(v: Value): seq<string>
  {
    match v
    case Arr(es) => seq(|es|, i requires 0 <= i < |es| => Text.NatToString(i))
    case Obj(props) => Keys(props)
    case _ => []
  }

  function Size(v: Value): nat
    decreases v
  {
    match v
    case Arr(es) => 1 + SizeSeq(es)
    case Obj(props) => 1 + SizeProps(props)
    case _ => 1
  }

  function SizeSeq(es: seq<Value>): nat
    decreases es
  {
    if |es| == 0 then 0 else SizeSeq(es[..|es| - 1]) + Size(es[|es| - 1])
  }

  function SizeProps(props: seq<Prop>): nat
    decreases props
  {
    if |props| == 0 then 0 else SizeProps(props[..|props| - 1]) + Size(props[|props| - 1].val)
  }

  /** Dropping the last property, or descending into it, shrinks the measure. */
  lemma SizePropsLast(props: seq<Prop>)
    requires |props| > 0
    ensures SizeProps(props[..|props| - 1]) < SizeProps(props)
    ensures props[|props| - 1].val.Obj? ==> SizeProps(props[|props| - 1].val.props) < SizeProps(props)
  {
    var v := props[|props| - 1].val;
    assert Size(v) >= 1;
  }

  lemma {:induction false} SizeSeqElem(es: seq<Value>, i: nat)
    requires i < |es|
    ensures Size(es[i]) <= SizeSeq(es)
    decreases |es|
  {
    if i < |es| - 1 {
      SizeSeqElem(es[..|es| - 1], i);
    }
  }

  lemma {:induction false} SizePropsElem(props: seq<Prop>, i: nat)
    requires i < |props|
    ensures Size(props[i].val) <= SizeProps(props)
    decreases |props|
  {
    if i < |props| - 1 {
      SizePropsElem(props[..|props| - 1], i);
    }
  }

  lemma {:induction false} LookupSize(props: seq<Prop>, k: string)
    requires Lookup(props, k).Some?
    ensures Size(Lookup(props, k).value) <= SizeProps(props)
  {
    var i :| 0 <= i < |props| && props[i].key == k;
    var j := LookupIndex(props, k);
    SizePropsElem(props, j);
  }

  lemma {:induction false} LookupIndex(props: seq<Prop>, k: string) returns (i: nat)
    requires Lookup(props, k).Some?
    ensures i < |props| && props[i].key == k && Lookup(props, k) == Some(props[i].val)
  {
    if props[0].key == k {
      i := 0;
    } else {
      var j := LookupIndex(props[1..], k);
      i := j + 1;
    }
  }

  /** Reading one of `Object.keys(v)` on an array or object yields a strictly smaller value. */
  lemma GetSmaller(v: Value, k: string)
    requires IsObjectType(v) && k in KeysOf(v)
    ensures Get(v, k).Some? && Size(Get(v, k).value) < Size(v)
  {
    match v
    case Obj(props) => LookupSize(props, k);
    case Arr(es) =>
      var i :| 0 <= i < |es| && k == Text.NatToString(i);
      IndexKey(i);
      assert k != "length";
      SizeSeqElem(es, i);
  }

  /** `String(v)`: array elements are joined with ',' and null elements render as "". */
  function ToJsString(v: Value): string
    decreases v
  {
    match v
    case Null => "null"
    case Bool(b) => if b then "true" else "false"
    case Int(i) => Text.IntToString(i)
    case Str(s) => s
    case Arr(es) =>
      Text.Join(seq(|es|, i requires 0 <= i < |es| => if es[i].Null? then "" else ToJsString(es[i])), ",")
    case Obj(_) => "[object Object]"
  }
}
