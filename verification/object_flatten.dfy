/**
 * `flatten` and `unflatten` of `ObjectUtils`: nested objects to one level of dot-joined keys
 * and back, with the round trip proved for objects whose keys are non-empty and dot-free.
 */
module ObjectFlatten {
  import opened Wrappers
  import opened Json
  import opened ObjectPaths
  import Text
  import ObjectRecords

  /** The key under `prefix`: the key alone while the prefix is falsy. */
  function Dotted(prefix: string, key: string): string
  {
    if prefix == "" then key else prefix + "." + key
  }

  /** A flattened value: anything but an object with at least one key. */
  predicate IsLeaf(v: Value)
  {
    !(v.Obj? && |v.props| > 0)
  }

  predicate AllLeaves(props: seq<Prop>)
  {
    forall i :: 0 <= i < |props| ==> IsLeaf(props[i].val)
  }

  lemma AssignLeaves(acc: seq<Prop>, src: seq<Prop>)
    requires AllLeaves(acc) && AllLeaves(src)
    ensures AllLeaves(Assign(acc, src))
  {
    var r := Assign(acc, src);
    forall i | 0 <= i < |r|
      ensures IsLeaf(r[i].val)
    {
      assert r[i] in acc || r[i] in src;
    }
  }

  /** `ObjectUtils.flatten(obj, prefix)`, folding over the properties in order. */
  function Flatten(props: seq<Prop>, prefix: string): (r: seq<Prop>)
    ensures AllLeaves(r)
    decreases SizeProps(props)
  {
    if |props| == 0 then []
    else
      var init, p := props[..|props| - 1], props[|props| - 1];
      SizePropsLast(props);
      var acc := Flatten(init, prefix);
      var key := Dotted(prefix, p.key);
      if p.val.Obj? && |p.val.props| > 0 then
        AssignLeaves(acc, Flatten(p.val.props, key));
        Assign(acc, Flatten(p.val.props, key))
      else Put(acc, key, p.val)
  }

  /** `ObjectUtils.unflatten(obj)`: `setByPath` of every property, in order, into `{}`. */
  function Unflatten(flat: seq<Prop>): (r: Written)
    ensures r.Written? ==> r.value.Obj?
  {
    if |flat| == 0 then Written(Obj([]))
    else
      match Unflatten(flat[..|flat| - 1])
      case Written(acc) => SetByPath(acc, flat[|flat| - 1].key, flat[|flat| - 1].val)
      case Thrown(f) => Thrown(f)
  }

  predicate CleanKey(k: string)
  {
    k != "" && '.' !in k
  }

  /** Keys are distinct, non-empty and free of '.', at every level of nesting. */
  predicate Clean(props: seq<Prop>)
    decreases props
  {
    DistinctKeys(props) &&
    forall i :: 0 <= i < |props| ==>
      CleanKey(props[i].key) && (props[i].val.Obj? ==> Clean(props[i].val.props))
  }

  predicate CleanPath(path: seq<string>)
  {
    |path| > 0 && forall j :: 0 <= j < |path| ==> CleanKey(path[j])
  }

  /** One leaf of a nested object: the keys leading to it and its value. */
  datatype Entry = Entry(path: seq<string>, val: Value)

  function Prefixed(k: string, es: seq<Entry>): (r: seq<Entry>)
    ensures |r| == |es|
    ensures forall i :: 0 <= i < |es| ==> r[i] == Entry([k] + es[i].path, es[i].val)
  {
    seq(|es|, i requires 0 <= i < |es| => Entry([k] + es[i].path, es[i].val))
  }

  /** The leaves of an object, in the order `flatten` visits them. */
  function Entries(props: seq<Prop>): seq<Entry>
    decreases SizeProps(props)
  {
    if |props| == 0 then []
    else
      var init, p := props[..|props| - 1], props[|props| - 1];
      SizePropsLast(props);
      Entries(init) +
        (if p.val.Obj? && |p.val.props| > 0 then Prefixed(p.key, Entries(p.val.props))
         else [Entry([p.key], p.val)])
  }

  /** The flat properties naming each entry by its dot-joined path under `base`. */
  function Render(base: seq<string>, es: seq<Entry>): (r: seq<Prop>)
    ensures |r| == |es|
    ensures forall i :: 0 <= i < |es| ==> r[i] == Prop(Text.Join(base + es[i].path, "."), es[i].val)
  {
    seq(|es|, i requires 0 <= i < |es| => Prop(Text.Join(base + es[i].path, "."), es[i].val))
  }

  lemma CleanInit(props: seq<Prop>)
    requires |props| > 0 && Clean(props)
    ensures Clean(props[..|props| - 1])
    ensures props[|props| - 1].key !in Keys(props[..|props| - 1])
  {
    var n := |props|;
    forall i | 0 <= i < n - 1
      ensures props[i].key != props[n - 1].key
    {
    }
    assert forall i :: 0 <= i < n - 1 ==> Keys(props[..n - 1])[i] == props[i].key;
  }

  /** Entries have clean, pairwise distinct paths, each starting at a key of the object. */
  lemma {:induction false} EntriesShape(props: seq<Prop>)
    requires Clean(props)
    ensures |props| > 0 ==> |Entries(props)| > 0
    ensures forall i :: 0 <= i < |Entries(props)| ==>
      CleanPath(Entries(props)[i].path) && Entries(props)[i].path[0] in Keys(props)
    ensures forall i, j :: 0 <= i < j < |Entries(props)| ==> Entries(props)[i].path != Entries(props)[j].path
    decreases SizeProps(props)
  {
    if |props| > 0 {
      var n := |props|;
      var init, p := props[..n - 1], props[n - 1];
      SizePropsLast(props);
      CleanInit(props);
      EntriesShape(init);
      var head := Entries(init);
      var tail := if p.val.Obj? && |p.val.props| > 0 then Prefixed(p.key, Entries(p.val.props))
                  else [Entry([p.key], p.val)];
      assert Entries(props) == head + tail;
      assert Keys(props) == Keys(init) + [p.key];
      if p.val.Obj? && |p.val.props| > 0 {
        assert Clean(p.val.props);
        EntriesShape(p.val.props);
        forall i | 0 <= i < |tail|
          ensures CleanPath(tail[i].path) && tail[i].path[0] == p.key
        {
        }
        forall i, j | 0 <= i < j < |tail|
          ensures tail[i].path != tail[j].path
        {
          assert tail[i].path[1..] == Entries(p.val.props)[i].path;
          assert tail[j].path[1..] == Entries(p.val.props)[j].path;
        }
      }
      forall i, j | 0 <= i < j < |head + tail|
        ensures (head + tail)[i].path != (head + tail)[j].path
      {
        if i < |head| && j >= |head| {
          assert (head + tail)[j] == tail[j - |head|];
          assert tail[j - |head|].path[0] == p.key;
        }
      }
    }
  }

  lemma {:induction false} JoinNonEmpty(path: seq<string>)
    requires CleanPath(path)
    ensures Text.Join(path, ".") != ""
  {
    if |path| > 1 {
      assert |Text.Join(path, ".")| >= |path[0]|;
    }
  }

  lemma {:induction false} JoinSnoc(path: seq<string>, k: string)
    requires |path| > 0
    ensures Text.Join(path + [k], ".") == Text.Join(path, ".") + "." + k
  {
    if |path| > 1 {
      JoinSnoc(path[1..], k);
      assert (path + [k])[1..] == path[1..] + [k];
    }
  }

  /** The key `flatten` builds for a nested key is the dot-joined path. */
  lemma DottedJoin(base: seq<string>, k: string)
    requires forall j :: 0 <= j < |base| ==> CleanKey(base[j])
    ensures Dotted(Text.Join(base, "."), k) == Text.Join(base + [k], ".")
  {
    if |base| == 0 {
      assert base + [k] == [k];
    } else {
      JoinNonEmpty(base);
      JoinSnoc(base, k);
    }
  }

  /** Dot-joining is injective on clean paths. */
  lemma JoinInjective(x: seq<string>, y: seq<string>)
    requires CleanPath(x) && CleanPath(y)
    requires Text.Join(x, ".") == Text.Join(y, ".")
    ensures x == y
  {
    Text.SplitJoin(x, '.');
    Text.SplitJoin(y, '.');
  }

  lemma {:induction false} AssignFresh(acc: seq<Prop>, src: seq<Prop>)
    requires DistinctKeys(src)
    requires forall i :: 0 <= i < |src| ==> src[i].key !in Keys(acc)
    ensures Assign(acc, src) == acc + src
    decreases |src|
  {
    if |src| > 0 {
      var next := acc + [src[0]];
      AssignFreshStep(acc, src);
      AssignFresh(next, src[1..]);
      ConsSplit(acc, src);
    }
  }

  lemma ConsSplit<T>(acc: seq<T>, src: seq<T>)
    requires |src| > 0
    ensures (acc + [src[0]]) + src[1..] == acc + src
  {
  }

  lemma AssignFreshStep(acc: seq<Prop>, src: seq<Prop>)
    requires |src| > 0 && DistinctKeys(src)
    requires forall i :: 0 <= i < |src| ==> src[i].key !in Keys(acc)
    ensures Assign(acc, src) == Assign(acc + [src[0]], src[1..])
    ensures DistinctKeys(src[1..])
    ensures forall i :: 0 <= i < |src[1..]| ==> src[1..][i].key !in Keys(acc + [src[0]])
  {
    var p, rest := src[0], src[1..];
    assert Put(acc, p.key, p.val) == acc + [p] by {
      assert p == Prop(p.key, p.val);
    }
    assert Keys(acc + [p]) == Keys(acc) + [p.key];
    forall i | 0 <= i < |rest|
      ensures rest[i].key !in Keys(acc + [p])
    {
      assert rest[i] == src[i + 1];
    }
  }

  lemma KeysAppend(acc: seq<Prop>, p: Prop)
    ensures forall k :: k in Keys(acc + [p]) <==> k in Keys(acc) || k == p.key
  {
    assert Keys(acc + [p]) == Keys(acc) + [p.key];
  }

  /** `flatten` lists the entries of the object, named by their dot-joined paths. */
  lemma {:induction false} FlattenRender(props: seq<Prop>, base: seq<string>)
    requires Clean(props)
    requires forall j :: 0 <= j < |base| ==> CleanKey(base[j])
    ensures Flatten(props, Text.Join(base, ".")) == Render(base, Entries(props))
    decreases SizeProps(props)
  {
    if |props| > 0 {
      var n := |props|;
      var init, p := props[..n - 1], props[n - 1];
      SizePropsLast(props);
      CleanInit(props);
      FlattenRender(init, base);
      if p.val.Obj? && |p.val.props| > 0 {
        assert Clean(p.val.props);
        assert forall j :: 0 <= j < |base + [p.key]| ==> CleanKey((base + [p.key])[j]);
        FlattenRender(p.val.props, base + [p.key]);
        FlattenRenderNested(props, base);
      } else {
        FlattenRenderLeaf(props, base);
      }
    }
  }

  lemma FlattenRenderLeaf(props: seq<Prop>, base: seq<string>)
    requires |props| > 0 && Clean(props)
    requires forall j :: 0 <= j < |base| ==> CleanKey(base[j])
    requires IsLeaf(props[|props| - 1].val)
    requires Flatten(props[..|props| - 1], Text.Join(base, ".")) == Render(base, Entries(props[..|props| - 1]))
    ensures Flatten(props, Text.Join(base, ".")) == Render(base, Entries(props))
  {
    var init, p := props[..|props| - 1], props[|props| - 1];
    var q := Prop(Text.Join(base + [p.key], "."), p.val);
    FlattenLeafStep(props, base);
    RenderLeafStep(props, base);
    LeafNameFresh(props, base);
    PutFresh(Render(base, Entries(init)), q);
  }

  /** `flatten` puts a leaf under its dotted name, after the earlier properties. */
  lemma FlattenLeafStep(props: seq<Prop>, base: seq<string>)
    requires |props| > 0
    requires forall j :: 0 <= j < |base| ==> CleanKey(base[j])
    requires IsLeaf(props[|props| - 1].val)
    ensures var p := props[|props| - 1]; var prefix := Text.Join(base, ".");
      Flatten(props, prefix) == Put(Flatten(props[..|props| - 1], prefix), Text.Join(base + [p.key], "."), p.val)
  {
    DottedJoin(base, props[|props| - 1].key);
    FlattenLast(props, Text.Join(base, "."));
  }

  /** The rendered entries of a leaf-ended object end with the leaf under its dotted name. */
  lemma RenderLeafStep(props: seq<Prop>, base: seq<string>)
    requires |props| > 0
    requires IsLeaf(props[|props| - 1].val)
    ensures var p := props[|props| - 1];
      Render(base, Entries(props))
        == Render(base, Entries(props[..|props| - 1])) + [Prop(Text.Join(base + [p.key], "."), p.val)]
  {
    var p := props[|props| - 1];
    var tail := EntriesLast(props);
    RenderAppend(base, Entries(props[..|props| - 1]), tail);
    assert Render(base, tail) == [Prop(Text.Join(base + [p.key], "."), p.val)];
  }

  /** The dotted name of the last property is not among the names rendered before it. */
  lemma LeafNameFresh(props: seq<Prop>, base: seq<string>)
    requires |props| > 0 && Clean(props)
    requires forall j :: 0 <= j < |base| ==> CleanKey(base[j])
    requires IsLeaf(props[|props| - 1].val)
    ensures var p := props[|props| - 1];
      Text.Join(base + [p.key], ".") !in Keys(Render(base, Entries(props[..|props| - 1])))
  {
    var init, p := props[..|props| - 1], props[|props| - 1];
    CleanInit(props);
    EntriesAvoid(init, p.key);
    var tail := EntriesLast(props);
    assert CleanPath(tail[0].path) && tail[0].path[0] == p.key;
    RenderFresh(base, Entries(init), tail, p.key);
    assert Render(base, tail)[0].key == Text.Join(base + [p.key], ".");
  }

  lemma FlattenRenderNested(props: seq<Prop>, base: seq<string>)
    requires |props| > 0 && Clean(props)
    requires forall j :: 0 <= j < |base| ==> CleanKey(base[j])
    requires !IsLeaf(props[|props| - 1].val)
    requires Flatten(props[..|props| - 1], Text.Join(base, ".")) == Render(base, Entries(props[..|props| - 1]))
    requires var p := props[|props| - 1];
      Flatten(p.val.props, Text.Join(base + [p.key], ".")) == Render(base + [p.key], Entries(p.val.props))
    ensures Flatten(props, Text.Join(base, ".")) == Render(base, Entries(props))
  {
    var n := |props|;
    var init, p := props[..n - 1], props[n - 1];
    var sub := p.val.props;
    CleanInit(props);
    assert Clean(sub);
    EntriesAvoid(init, p.key);
    DottedJoin(base, p.key);
    FlattenLast(props, Text.Join(base, "."));
    var tail := EntriesLast(props);
    RenderAppend(base, Entries(init), tail);
    EntriesShape(sub);
    RenderPrefixed(base, p.key, Entries(sub));
    PrefixedShape(p.key, Entries(sub));
    RenderFresh(base, Entries(init), tail, p.key);
    AssignFresh(Render(base, Entries(init)), Render(base, tail));
  }

  lemma EntriesAvoid(props: seq<Prop>, k: string)
    requires Clean(props) && k !in Keys(props)
    ensures forall i :: 0 <= i < |Entries(props)| ==>
      CleanPath(Entries(props)[i].path) && Entries(props)[i].path[0] != k
  {
    EntriesShape(props);
  }

  /** One step of the fold of `flatten`. */
  lemma FlattenLast(props: seq<Prop>, prefix: string)
    requires |props| > 0
    ensures var p := props[|props| - 1];
      var acc := Flatten(props[..|props| - 1], prefix);
      Flatten(props, prefix) ==
        if p.val.Obj? && |p.val.props| > 0 then Assign(acc, Flatten(p.val.props, Dotted(prefix, p.key)))
        else Put(acc, Dotted(prefix, p.key), p.val)
  {
  }

  lemma PutFresh(acc: seq<Prop>, p: Prop)
    requires p.key !in Keys(acc)
    ensures Put(acc, p.key, p.val) == acc + [p]
  {
    assert p == Prop(p.key, p.val);
  }

  lemma RenderAppend(base: seq<string>, xs: seq<Entry>, ys: seq<Entry>)
    ensures Render(base, xs + ys) == Render(base, xs) + Render(base, ys)
  {
  }

  lemma RenderPrefixed(base: seq<string>, k: string, es: seq<Entry>)
    ensures Render(base + [k], es) == Render(base, Prefixed(k, es))
  {
    forall i | 0 <= i < |es|
      ensures base + [k] + es[i].path == base + Prefixed(k, es)[i].path
    {
    }
  }

  lemma PrefixedShape(k: string, es: seq<Entry>)
    requires CleanKey(k)
    requires forall i :: 0 <= i < |es| ==> CleanPath(es[i].path)
    requires forall i, j :: 0 <= i < j < |es| ==> es[i].path != es[j].path
    ensures forall i :: 0 <= i < |es| ==> CleanPath(Prefixed(k, es)[i].path) && Prefixed(k, es)[i].path[0] == k
    ensures forall i, j :: 0 <= i < j < |es| ==> Prefixed(k, es)[i].path != Prefixed(k, es)[j].path
  {
    var r := Prefixed(k, es);
    forall i, j | 0 <= i < j < |es|
      ensures r[i].path != r[j].path
    {
      assert r[i].path[1..] == es[i].path;
      assert r[j].path[1..] == es[j].path;
    }
  }

  lemma CleanConcat(base: seq<string>, path: seq<string>)
    requires forall j :: 0 <= j < |base| ==> CleanKey(base[j])
    requires CleanPath(path)
    ensures CleanPath(base + path) && (base + path)[|base|] == path[0]
  {
  }

  /** Under a clean base, clean paths get the same dotted name only when they are equal. */
  lemma JoinUnder(base: seq<string>, a: seq<string>, b: seq<string>)
    requires forall j :: 0 <= j < |base| ==> CleanKey(base[j])
    requires CleanPath(a) && CleanPath(b)
    ensures Text.Join(base + a, ".") == Text.Join(base + b, ".") ==> a == b
  {
    if Text.Join(base + a, ".") == Text.Join(base + b, ".") {
      CleanConcat(base, a);
      CleanConcat(base, b);
      JoinInjective(base + a, base + b);
      assert a == (base + a)[|base|..];
      assert b == (base + b)[|base|..];
    }
  }

  /**
   * Rendered entries that start at a key `k` get distinct names, none of which is taken
   * by the rendered entries starting at other keys.
   */
  lemma RenderFresh(base: seq<string>, xs: seq<Entry>, ys: seq<Entry>, k: string)
    requires forall j :: 0 <= j < |base| ==> CleanKey(base[j])
    requires forall i :: 0 <= i < |xs| ==> CleanPath(xs[i].path) && xs[i].path[0] != k
    requires forall i :: 0 <= i < |ys| ==> CleanPath(ys[i].path) && ys[i].path[0] == k
    requires forall i, j :: 0 <= i < j < |ys| ==> ys[i].path != ys[j].path
    ensures DistinctKeys(Render(base, ys))
    ensures forall i :: 0 <= i < |ys| ==> Render(base, ys)[i].key !in Keys(Render(base, xs))
  {
    var rx, ry := Render(base, xs), Render(base, ys);
    forall i, j | 0 <= i < j < |ys|
      ensures ry[i].key != ry[j].key
    {
      JoinUnder(base, ys[i].path, ys[j].path);
    }
    forall i | 0 <= i < |ys|
      ensures ry[i].key !in Keys(rx)
    {
      forall j | 0 <= j < |rx|
        ensures Keys(rx)[j] != ry[i].key
      {
        JoinUnder(base, ys[i].path, xs[j].path);
      }
    }
  }

  /** The writes of `unflatten`, one entry after the other, stopping at the first throw. */
  function ApplyAll(cur: Value, es: seq<Entry>): (r: Written)
    requires forall i :: 0 <= i < |es| ==> |es[i].path| > 0
    ensures r.Written? ==> r.value.Obj? == cur.Obj?
  {
    if |es| == 0 then Written(cur)
    else
      match ApplyAll(cur, es[..|es| - 1])
      case Written(c) => SetKeys(c, es[|es| - 1].path, es[|es| - 1].val)
      case Thrown(f) => Thrown(f)
  }

  lemma {:induction false} ApplyAllAppend(cur: Value, xs: seq<Entry>, ys: seq<Entry>)
    requires forall i :: 0 <= i < |xs| ==> |xs[i].path| > 0
    requires forall i :: 0 <= i < |ys| ==> |ys[i].path| > 0
    ensures forall i :: 0 <= i < |xs + ys| ==> |(xs + ys)[i].path| > 0
    ensures ApplyAll(cur, xs + ys) ==
      match ApplyAll(cur, xs)
      case Written(c) => ApplyAll(c, ys)
      case Thrown(f) => Thrown(f)
    decreases |ys|
  {
    if |ys| == 0 {
      assert xs + ys == xs;
    } else {
      var zs := xs + ys;
      assert zs[..|zs| - 1] == xs + ys[..|ys| - 1];
      assert zs[|zs| - 1] == ys[|ys| - 1];
      ApplyAllAppend(cur, xs, ys[..|ys| - 1]);
    }
  }

  /** `unflatten` of rendered entries performs exactly their writes. */
  lemma {:induction false} UnflattenRender(es: seq<Entry>)
    requires forall i :: 0 <= i < |es| ==> CleanPath(es[i].path)
    ensures forall i :: 0 <= i < |es| ==> |es[i].path| > 0
    ensures Unflatten(Render([], es)) == ApplyAll(Obj([]), es)
  {
    if |es| > 0 {
      var n := |es|;
      RenderInit([], es);
      UnflattenRender(es[..n - 1]);
      match ApplyAll(Obj([]), es[..n - 1])
      case Written(acc) => SetByPathJoined(acc, es[n - 1].path, es[n - 1].val);
      case Thrown(_) =>
    }
  }

  lemma RenderInit(base: seq<string>, es: seq<Entry>)
    requires |es| > 0
    ensures Render(base, es)[..|es| - 1] == Render(base, es[..|es| - 1])
    ensures Render(base, es)[|es| - 1] == Prop(Text.Join(base + es[|es| - 1].path, "."), es[|es| - 1].val)
  {
  }

  /** `setByPath` on an object under a joined clean path writes along that path. */
  lemma SetByPathJoined(acc: Value, path: seq<string>, v: Value)
    requires acc.Obj? && CleanPath(path)
    ensures SetByPath(acc, Text.Join([] + path, "."), v) == SetKeys(acc, path, v)
  {
    assert [] + path == path;
    JoinNonEmpty(path);
    Text.SplitJoin(path, '.');
  }

  /** The object `a` with a written child `k`, or the exception. */
  function Nest(a: seq<Prop>, k: string, w: Written): Written
  {
    match w
    case Written(c) => Written(Obj(Put(a, k, c)))
    case Thrown(f) => Thrown(f)
  }

  /** Writing entries under a fresh key `k` builds their object there. */
  lemma {:induction false} ApplyAllPrefixed(a: seq<Prop>, k: string, es: seq<Entry>)
    requires k !in Keys(a) && |es| > 0
    requires forall i :: 0 <= i < |es| ==> |es[i].path| > 0
    ensures forall i :: 0 <= i < |es| ==> |Prefixed(k, es)[i].path| > 0
    ensures ApplyAll(Obj(a), Prefixed(k, es)) == Nest(a, k, ApplyAll(Obj([]), es))
    decreases |es|
  {
    var n := |es|;
    var e := es[n - 1];
    PrefixedInit(k, es);
    if n == 1 {
      ApplyAllSingle(Obj(a), Prefixed(k, es));
      ApplyAllSingle(Obj([]), es);
      SetKeysFreshChild(a, k, e.path, e.val);
    } else {
      ApplyAllPrefixed(a, k, es[..n - 1]);
      match ApplyAll(Obj([]), es[..n - 1])
      case Written(c) => SetKeysExistingChild(a, k, c, e.path, e.val);
      case Thrown(_) =>
    }
  }

  lemma PrefixedInit(k: string, es: seq<Entry>)
    requires |es| > 0
    ensures Prefixed(k, es)[..|es| - 1] == Prefixed(k, es[..|es| - 1])
  {
  }

  lemma ApplyAllSingle(cur: Value, es: seq<Entry>)
    requires |es| == 1 && |es[0].path| > 0
    ensures ApplyAll(cur, es) == SetKeys(cur, es[0].path, es[0].val)
  {
    assert es[..0] == [];
  }

  /** The first write below a fresh key creates `{}` there and writes into it. */
  lemma SetKeysFreshChild(a: seq<Prop>, k: string, path: seq<string>, v: Value)
    requires k !in Keys(a) && |path| > 0
    ensures SetKeys(Obj(a), [k] + path, v) == Nest(a, k, SetKeys(Obj([]), path, v))
  {
    assert ([k] + path)[1..] == path;
  }

  /** Later writes below `k` descend into the object already there. */
  lemma SetKeysExistingChild(a: seq<Prop>, k: string, c: Value, path: seq<string>, v: Value)
    requires c.Obj? && |path| > 0
    ensures SetKeys(Obj(Put(a, k, c)), [k] + path, v) == Nest(a, k, SetKeys(c, path, v))
  {
    assert ([k] + path)[1..] == path;
    assert Get(Obj(Put(a, k, c)), k) == Some(c);
    match SetKeys(c, path, v)
    case Written(d) => PutPut(a, k, c, d);
    case Thrown(_) =>
  }

  /** Writing the entries of a clean object into `{}` rebuilds the object. */
  lemma {:induction false} ApplyAllEntries(props: seq<Prop>)
    requires Clean(props)
    ensures forall i :: 0 <= i < |Entries(props)| ==> |Entries(props)[i].path| > 0
    ensures ApplyAll(Obj([]), Entries(props)) == Written(Obj(props))
    decreases SizeProps(props)
  {
    EntriesShape(props);
    if |props| > 0 {
      var n := |props|;
      var init, p := props[..n - 1], props[n - 1];
      SizePropsLast(props);
      CleanInit(props);
      ApplyAllEntries(init);
      var tail := EntriesLast(props);
      ApplyAllAppend(Obj([]), Entries(init), tail);
      PutLast(props);
      if p.val.Obj? && |p.val.props| > 0 {
        var sub := p.val.props;
        assert Clean(sub);
        EntriesShape(sub);
        ApplyAllEntries(sub);
        ApplyAllPrefixed(init, p.key, Entries(sub));
      } else {
        ApplyAllSingle(Obj(init), tail);
      }
    }
  }

  /** The entries of an object: those of all but its last property, then the last one's. */
  lemma EntriesLast(props: seq<Prop>) returns (tail: seq<Entry>)
    requires |props| > 0
    ensures var p := props[|props| - 1];
      tail == (if p.val.Obj? && |p.val.props| > 0 then Prefixed(p.key, Entries(p.val.props))
               else [Entry([p.key], p.val)])
    ensures Entries(props) == Entries(props[..|props| - 1]) + tail
  {
    var p := props[|props| - 1];
    tail := if p.val.Obj? && |p.val.props| > 0 then Prefixed(p.key, Entries(p.val.props))
            else [Entry([p.key], p.val)];
  }

  lemma PutLast(props: seq<Prop>)
    requires |props| > 0
    requires props[|props| - 1].key !in Keys(props[..|props| - 1])
    ensures Put(props[..|props| - 1], props[|props| - 1].key, props[|props| - 1].val) == props
  {
    var p := props[|props| - 1];
    assert p == Prop(p.key, p.val);
    assert props[..|props| - 1] + [p] == props;
  }

  /** `unflatten(flatten(o))` gives back `o` when every key is non-empty and dot-free. */
  lemma UnflattenFlatten(props: seq<Prop>)
    requires Clean(props)
    ensures Unflatten(Flatten(props, "")) == Written(Obj(props))
  {
    FlattenRender(props, []);
    EntriesShape(props);
    UnflattenRender(Entries(props));
    ApplyAllEntries(props);
  }

  /** Hence the round trip is `isEqual` to the original. */
  lemma UnflattenFlattenIsEqual(props: seq<Prop>)
    requires Clean(props)
    ensures Unflatten(Flatten(props, "")).Written?
    ensures ObjectRecords.IsEqual(Unflatten(Flatten(props, "")).value, Obj(props))
  {
    UnflattenFlatten(props);
    ObjectRecords.IsEqualReflexive(Obj(props));
  }
}
