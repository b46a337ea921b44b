/**
 * Dotted-path access on JavaScript values: `getByPath`, `setByPath` and `removeByPath` of
 * `ObjectUtils`. The two writers mutate their argument in place and return it; here they
 * return the updated value instead. Class bodies run in strict mode, so writing a property
 * of a primitive throws a `TypeError`; writes that would leave holes in arrays or give them
 * named properties are reported as `OutsideModel`.
 */
module ObjectPaths {
  import opened Wrappers
  import opened Json
  import Text

  datatype Fault = TypeError | OutsideModel

  /** What a writer hands back: the updated value, or the exception it throws. */
  datatype Written = Written(value: Value) | Thrown(fault: Fault)

  /** `path.split('.')`. */
  function PathKeys(path: string): (keys: seq<string>)
    ensures |keys| >= 1
  {
    Text.Split(path, '.')
  }

  /**
   * Reads along `keys`, stepping only through arrays and objects. `None` is `undefined`:
   * a missing property, or a step attempted from a primitive or null.
   */
  function At(cur: Option<Value>, keys: seq<string>): Option<Value>
    decreases |keys|
  {
    if |keys| == 0 then cur
    else if cur.Some? && IsObjectType(cur.value) then At(Get(cur.value, keys[0]), keys[1..])
    else None
  }

  /** `ObjectUtils.getByPath(obj, path, defaultValue)`. */
  function GetByPath(obj: Value, path: string, dflt: Option<Value>): (r: Option<Value>)
    ensures !Truthy(obj) || path == "" ==> r == dflt
    ensures r != dflt ==> r.Some? && r.value != Null && r == At(Some(obj), PathKeys(path))
    ensures (Truthy(obj) && path != "" && At(Some(obj), PathKeys(path)).Some? &&
             At(Some(obj), PathKeys(path)).value != Null) ==> r == At(Some(obj), PathKeys(path))
  {
    if !Truthy(obj) || path == "" then dflt
    else
      var found := At(Some(obj), PathKeys(path));
      if found.None? || found.value.Null? then dflt else found
  }

  /** Once a step lands on a primitive or null, the rest of the path finds nothing. */
  lemma {:induction false} AtStops(cur: Option<Value>, keys: seq<string>, j: nat)
    requires j < |keys|
    requires At(cur, keys[..j]).Some? && !IsObjectType(At(cur, keys[..j]).value)
    ensures At(cur, keys) == None
    decreases j
  {
    if j > 0 {
      assert keys[..j][1..] == keys[1..][..j - 1];
      AtStops(Get(cur.value, keys[0]), keys[1..], j - 1);
    }
  }

  /** A null or primitive intermediate value makes `getByPath` return the default. */
  lemma GetByPathBrokenPath(obj: Value, path: string, dflt: Option<Value>, j: nat)
    requires j < |PathKeys(path)|
    requires At(Some(obj), PathKeys(path)[..j]).Some?
    requires !IsObjectType(At(Some(obj), PathKeys(path)[..j]).value)
    ensures GetByPath(obj, path, dflt) == dflt
  {
    AtStops(Some(obj), PathKeys(path), j);
  }

  /**
   * Puts `c` back as the child `k` of an array or object, where `k` already names a
   * property (an in-range index, for an array).
   */
  function Replace(cur: Value, k: string, c: Value): (r: Value)
    requires IsObjectType(cur) && Get(cur, k).Some?
    requires cur.Arr? ==> k != "length"
    ensures IsObjectType(r) && r.Obj? == cur.Obj?
    ensures Get(r, k) == Some(c)
    ensures forall j :: j != k ==> Get(r, j) == Get(cur, j)
  {
    match cur
    case Obj(props) => Obj(Put(props, k, c))
    case Arr(es) =>
      var i := CanonicalIndex(k).value;
      var r := Arr(es[i := c]);
      assert forall j :: j != k && CanonicalIndex(j).Some? ==> CanonicalIndex(j).value != i;
      r
  }

  /** The assignments of `setByPath`, from `cur` down along `keys`. */
  function SetKeys(cur: Value, keys: seq<string>, v: Value): (r: Written)
    requires |keys| > 0
    ensures !IsObjectType(cur) ==> r == Thrown(TypeError)
    ensures r.Written? ==> IsObjectType(r.value) && r.value.Obj? == cur.Obj?
    decreases |keys|
  {
    var k := keys[0];
    if !IsObjectType(cur) then Thrown(TypeError)
    else if |keys| == 1 then
      if cur.Obj? then Written(Obj(Put(cur.props, k, v))) else Thrown(OutsideModel)
    else
      var child := Get(cur, k);
      // An object-type child is kept and descended into; a missing, null or primitive
      // child is replaced by a fresh `{}`, which an array cannot take.
      if child.Some? && IsObjectType(child.value) then
        match SetKeys(child.value, keys[1..], v)
        case Written(c) => Written(Replace(cur, k, c))
        case Thrown(f) => Thrown(f)
      else if cur.Obj? then
        match SetKeys(Obj([]), keys[1..], v)
        case Written(c) => Written(Obj(Put(cur.props, k, c)))
        case Thrown(f) => Thrown(f)
      else Thrown(OutsideModel)
  }

  /** `ObjectUtils.setByPath(obj, path, value)`. */
  function SetByPath(obj: Value, path: string, v: Value): (r: Written)
    ensures !Truthy(obj) || path == "" ==> r == Written(obj)
    ensures Truthy(obj) && !IsObjectType(obj) && path != "" ==> r == Thrown(TypeError)
  {
    if !Truthy(obj) || path == "" then Written(obj) else SetKeys(obj, PathKeys(path), v)
  }

  /** `delete cur[k]` in strict mode. */
  function DeleteKey(cur: Value, k: string): (r: Written)
    ensures r.Written? ==> Get(r.value, k).None? || !IsObjectType(r.value)
  {
    match cur
    case Obj(props) => Written(Obj(Delete(props, k)))
    case Arr(_) =>
      if k == "length" then Thrown(TypeError)
      else if Get(cur, k).Some? then Thrown(OutsideModel)
      else Written(cur)
    case Str(_) => if Get(cur, k).Some? then Thrown(TypeError) else Written(cur)
    case Null => Thrown(TypeError)
    case _ => Written(cur)
  }

  /** The walk of `removeByPath`, from `cur` down along `keys`. */
  function RemoveKeys(cur: Value, keys: seq<string>): (r: Written)
    requires |keys| > 0
    ensures r.Written? ==> r.value.Obj? == cur.Obj? && r.value.Arr? == cur.Arr?
    decreases |keys|
  {
    if |keys| == 1 then DeleteKey(cur, keys[0])
    else
      var child := Get(cur, keys[0]);
      if child.None? || !IsObjectType(child.value) then Written(cur)
      else
        match RemoveKeys(child.value, keys[1..])
        case Written(c) => Written(Replace(cur, keys[0], c))
        case Thrown(f) => Thrown(f)
  }

  /** `ObjectUtils.removeByPath(obj, path)`. */
  function RemoveByPath(obj: Value, path: string): (r: Written)
    ensures !Truthy(obj) || path == "" ==> r == Written(obj)
  {
    if !Truthy(obj) || path == "" then Written(obj) else RemoveKeys(obj, PathKeys(path))
  }

  lemma {:induction false} SetKeysThenAt(cur: Value, keys: seq<string>, v: Value)
    requires |keys| > 0 && SetKeys(cur, keys, v).Written?
    ensures At(Some(SetKeys(cur, keys, v).value), keys) == Some(v)
    decreases |keys|
  {
    var k := keys[0];
    if |keys| > 1 {
      var child := Get(cur, k);
      if child.Some? && IsObjectType(child.value) {
        SetKeysThenAt(child.value, keys[1..], v);
      } else {
        SetKeysThenAt(Obj([]), keys[1..], v);
      }
    }
  }

  /** Reading back a non-null value just written under a non-empty path yields it. */
  lemma SetThenGet(obj: Value, path: string, v: Value, dflt: Option<Value>)
    requires Truthy(obj) && path != "" && v != Null
    requires SetByPath(obj, path, v).Written?
    ensures GetByPath(SetByPath(obj, path, v).value, path, dflt) == Some(v)
  {
    SetKeysThenAt(obj, PathKeys(path), v);
  }

  /** No node anywhere in `v` is an array. */
  predicate ArrayFree(v: Value)
    decreases v
  {
    match v
    case Arr(_) => false
    case Obj(props) => forall i :: 0 <= i < |props| ==> ArrayFree(props[i].val)
    case _ => true
  }

  lemma {:induction false} ArrayFreeLookup(props: seq<Prop>, k: string)
    requires forall i :: 0 <= i < |props| ==> ArrayFree(props[i].val)
    requires Lookup(props, k).Some?
    ensures ArrayFree(Lookup(props, k).value)
  {
    var i := LookupIndex(props, k);
  }

  lemma {:induction false} SetKeysArrayFree(props: seq<Prop>, keys: seq<string>, v: Value)
    requires |keys| > 0 && ArrayFree(Obj(props))
    ensures SetKeys(Obj(props), keys, v).Written?
    decreases |keys|
  {
    if |keys| > 1 {
      var child := Get(Obj(props), keys[0]);
      if child.Some? && IsObjectType(child.value) {
        ArrayFreeLookup(props, keys[0]);
        SetKeysArrayFree(child.value.props, keys[1..], v);
      } else {
        SetKeysArrayFree([], keys[1..], v);
      }
    }
  }

  /** On an object with no arrays inside, `setByPath` always completes. */
  lemma SetByPathCompletes(props: seq<Prop>, path: string, v: Value)
    requires ArrayFree(Obj(props))
    ensures SetByPath(Obj(props), path, v).Written?
  {
    if path != "" {
      SetKeysArrayFree(props, PathKeys(path), v);
    }
  }

  /**
   * `q` leaves the path `keys` at a node that was already an array or object: at some
   * depth, before the last key, it names a different property.
   */
  predicate Branches(cur: Value, keys: seq<string>, q: seq<string>)
    decreases |keys|
  {
    |keys| > 0 && |q| > 0 &&
    (q[0] != keys[0] ||
     (|keys| > 1 && Get(cur, keys[0]).Some? && IsObjectType(Get(cur, keys[0]).value) &&
      Branches(Get(cur, keys[0]).value, keys[1..], q[1..])))
  }

  /** Every path branching off the written one at an existing node reads as before. */
  lemma {:induction false} SetKeysKeepsOthers(cur: Value, keys: seq<string>, v: Value, q: seq<string>)
    requires |keys| > 0 && SetKeys(cur, keys, v).Written?
    requires Branches(cur, keys, q)
    ensures At(Some(SetKeys(cur, keys, v).value), q) == At(Some(cur), q)
    decreases |keys|
  {
    if q[0] == keys[0] {
      var child := Get(cur, keys[0]).value;
      SetKeysKeepsOthers(child, keys[1..], v, q[1..]);
    }
  }

  /** `setByPath` leaves unchanged whatever lies off the written path. */
  lemma SetByPathKeepsOthers(obj: Value, path: string, v: Value, q: seq<string>)
    requires Truthy(obj) && path != "" && SetByPath(obj, path, v).Written?
    requires Branches(obj, PathKeys(path), q)
    ensures At(Some(SetByPath(obj, path, v).value), q) == At(Some(obj), q)
  {
    SetKeysKeepsOthers(obj, PathKeys(path), v, q);
  }

  lemma {:induction false} RemoveKeysThenAt(cur: Value, keys: seq<string>)
    requires |keys| > 0 && RemoveKeys(cur, keys).Written?
    ensures At(Some(RemoveKeys(cur, keys).value), keys) == None
    decreases |keys|
  {
    if |keys| > 1 {
      var child := Get(cur, keys[0]);
      if child.Some? && IsObjectType(child.value) {
        RemoveKeysThenAt(child.value, keys[1..]);
      } else if child.Some? {
        assert At(child, keys[1..]) == None;
      }
    }
  }

  /** After `removeByPath`, reading the same path yields the default. */
  lemma RemoveThenGet(obj: Value, path: string, dflt: Option<Value>)
    requires RemoveByPath(obj, path).Written?
    ensures GetByPath(RemoveByPath(obj, path).value, path, dflt) == dflt
  {
    if Truthy(obj) && path != "" {
      RemoveKeysThenAt(obj, PathKeys(path));
    }
  }

  /** Every node before the last key exists and is an array or object. */
  predicate Reaches(cur: Value, keys: seq<string>)
    decreases |keys|
  {
    |keys| <= 1 ||
    (Get(cur, keys[0]).Some? && IsObjectType(Get(cur, keys[0]).value) &&
     Reaches(Get(cur, keys[0]).value, keys[1..]))
  }

  lemma {:induction false} RemoveKeysBroken(cur: Value, keys: seq<string>)
    requires |keys| > 0 && !Reaches(cur, keys)
    ensures RemoveKeys(cur, keys) == Written(cur)
    decreases |keys|
  {
    var child := Get(cur, keys[0]);
    if child.Some? && IsObjectType(child.value) {
      RemoveKeysBroken(child.value, keys[1..]);
      assert Replace(cur, keys[0], child.value) == cur by {
        match cur
        case Obj(props) => PutSame(props, keys[0]);
        case Arr(es) =>
      }
    }
  }

  /** A missing, null or primitive intermediate leaves `obj` as it was. */
  lemma RemoveByPathBroken(obj: Value, path: string)
    requires !Reaches(obj, PathKeys(path))
    ensures RemoveByPath(obj, path) == Written(obj)
  {
    if Truthy(obj) && path != "" {
      RemoveKeysBroken(obj, PathKeys(path));
    }
  }
}
