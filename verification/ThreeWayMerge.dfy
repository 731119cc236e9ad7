/** The recursive three-way merge of plain JSON values: what one process changed since the
    ancestor wins, what it did not touch is taken from disk. */
module ThreeWayMerge {
  import opened Json

  function Merge(disk: Json, ancestor: Json, current: Json): Json
    decreases current
  {
    if disk.Arr? && ancestor.Arr? && current.Arr? then
      if |disk.items| == |ancestor.items| == |current.items| then
        Arr(seq(|current.items|, i requires 0 <= i < |current.items| =>
          Merge(disk.items[i], ancestor.items[i], current.items[i])))
      else TopLevel(disk, ancestor, current)
    else if disk.Obj? && ancestor.Obj? && current.Obj? then
      var d, a, c := disk.fields, ancestor.fields, current.fields;
      Obj(map k | k in d.Keys + c.Keys && (k in d || !JEq(Get(c, k), Get(a, k))) ::
        if JEq(Get(c, k), Get(a, k)) then d[k]
        // A key the caller dropped reads as `undefined`, which is not a plain object.
        else if k !in c then Undef
        else Merge(Get(d, k), Get(a, k), c[k]))
    else TopLevel(disk, ancestor, current)
  }

  /** The rule for everything that is not a plain object on all three sides. */
  function TopLevel(disk: Json, ancestor: Json, current: Json): Json {
    if JEq(current, ancestor) then disk else current
  }

  /** Reading a key of a merged object, in one equation. */
  lemma MergeGet(d: map<string, Json>, a: map<string, Json>, c: map<string, Json>, k: string)
    ensures Get(Merge(Obj(d), Obj(a), Obj(c)).fields, k)
         == if JEq(Get(c, k), Get(a, k)) then Get(d, k) else Merge(Get(d, k), Get(a, k), Get(c, k))
  {
    var m := Merge(Obj(d), Obj(a), Obj(c)).fields;
    assert k in m <==> k in d.Keys + c.Keys && (k in d || !JEq(Get(c, k), Get(a, k)));
  }

  // ---- The laws of a writer that did nothing, or was alone -------------------------------

  /** A caller that changed nothing leaves disk exactly as it is. */
  lemma {:induction false} MergeUntouched(d: Json, a: Json, c: Json)
    requires JEq(c, a)
    ensures Merge(d, a, c) == d
    decreases c
  {
    if d.Arr? && a.Arr? && c.Arr? && |d.items| == |a.items| == |c.items| {
      ArrJEq(c.items, a.items);
      forall i | 0 <= i < |d.items| ensures Merge(d.items[i], a.items[i], c.items[i]) == d.items[i] {
        MergeUntouched(d.items[i], a.items[i], c.items[i]);
      }
      assert Merge(d, a, c).items == d.items;
    } else if d.Obj? && a.Obj? && c.Obj? {
      ObjJEq(c.fields, a.fields);
      assert Merge(d, a, c).fields == d.fields;
    }
  }

  /** When nobody else wrote, the caller's value is what is stored. */
  lemma {:induction false} MergeAlone(d: Json, a: Json, c: Json)
    requires JEq(d, a)
    ensures JEq(Merge(d, a, c), c)
    decreases c
  {
    if d.Arr? && a.Arr? && c.Arr? && |d.items| == |a.items| == |c.items| {
      ArrJEq(d.items, a.items);
      forall i | 0 <= i < |d.items| ensures JEq(Merge(d.items[i], a.items[i], c.items[i]), c.items[i]) {
        MergeAlone(d.items[i], a.items[i], c.items[i]);
      }
      ArrJEq(Merge(d, a, c).items, c.items);
    } else if d.Obj? && a.Obj? && c.Obj? {
      ObjJEq(d.fields, a.fields);
      forall k ensures JEq(Get(Merge(d, a, c).fields, k), Get(c.fields, k)) {
        MergeGet(d.fields, a.fields, c.fields, k);
        assert JEq(Get(d.fields, k), Get(a.fields, k));
        if k in c.fields {
          MergeAlone(Get(d.fields, k), Get(a.fields, k), c.fields[k]);
        }
      }
      ObjJEq(Merge(d, a, c).fields, c.fields);
    }
  }

  /** Two processes that made the same change agree on it. */
  lemma {:induction false} MergeAgreed(x: Json, a: Json, y: Json)
    requires JEq(x, y)
    ensures JEq(Merge(x, a, y), x)
    decreases y
  {
    if x.Arr? && a.Arr? && y.Arr? && |x.items| == |a.items| == |y.items| {
      ArrJEq(x.items, y.items);
      forall i | 0 <= i < |x.items| ensures JEq(Merge(x.items[i], a.items[i], y.items[i]), x.items[i]) {
        MergeAgreed(x.items[i], a.items[i], y.items[i]);
      }
      ArrJEq(Merge(x, a, y).items, x.items);
    } else if x.Obj? && a.Obj? && y.Obj? {
      ObjJEq(x.fields, y.fields);
      forall k ensures JEq(Get(Merge(x, a, y).fields, k), Get(x.fields, k)) {
        MergeGet(x.fields, a.fields, y.fields, k);
        assert JEq(Get(x.fields, k), Get(y.fields, k));
        if k in y.fields {
          MergeAgreed(Get(x.fields, k), Get(a.fields, k), y.fields[k]);
        }
      }
      ObjJEq(Merge(x, a, y).fields, x.fields);
    }
  }

  // ---- Convergence ----------------------------------------------------------------------

  /** At every path one side left the ancestor alone, or both sides made the same change, or
      the merge descends and no child conflicts. */
  ghost predicate NoConflict(x: Json, a: Json, y: Json)
    decreases y
  {
    || JEq(x, a) || JEq(y, a) || JEq(x, y)
    || (x.Obj? && a.Obj? && y.Obj?
        && (forall k :: k in y.fields ==> NoConflict(Get(x.fields, k), Get(a.fields, k), y.fields[k]))
        && (forall k :: k !in y.fields ==>
              JEq(Get(x.fields, k), Get(a.fields, k)) || Get(a.fields, k) == Undef || Get(x.fields, k) == Undef))
    || (x.Arr? && a.Arr? && y.Arr? && |x.items| == |a.items| == |y.items|
        && forall i :: 0 <= i < |y.items| ==> NoConflict(x.items[i], a.items[i], y.items[i]))
  }

  /** The order in which two processes save does not matter exactly when they do not conflict. */
  lemma {:induction false} Convergence(x: Json, a: Json, y: Json)
    ensures JEq(Merge(x, a, y), Merge(y, a, x)) <==> NoConflict(x, a, y)
    decreases y
  {
    if JEq(x, a) {
      MergeAlone(x, a, y);
      MergeUntouched(y, a, x);
    } else if JEq(y, a) {
      MergeUntouched(x, a, y);
      MergeAlone(y, a, x);
    } else if JEq(x, y) {
      MergeAgreed(x, a, y);
      MergeAgreed(y, a, x);
    } else if x.Arr? && a.Arr? && y.Arr? && |x.items| == |a.items| == |y.items| {
      ConvergenceArr(x.items, a.items, y.items);
    } else if x.Obj? && a.Obj? && y.Obj? {
      ConvergenceObj(x.fields, a.fields, y.fields);
    }
  }

  lemma {:induction false} ConvergenceArr(x: seq<Json>, a: seq<Json>, y: seq<Json>)
    requires |x| == |a| == |y|
    requires !JEq(Arr(x), Arr(a)) && !JEq(Arr(y), Arr(a)) && !JEq(Arr(x), Arr(y))
    ensures JEq(Merge(Arr(x), Arr(a), Arr(y)), Merge(Arr(y), Arr(a), Arr(x)))
       <==> NoConflict(Arr(x), Arr(a), Arr(y))
    decreases Arr(y), 0
  {
    var m, n := Merge(Arr(x), Arr(a), Arr(y)).items, Merge(Arr(y), Arr(a), Arr(x)).items;
    forall i | 0 <= i < |y| ensures JEq(m[i], n[i]) <==> NoConflict(x[i], a[i], y[i]) {
      assert y[i] < Arr(y);
      Convergence(x[i], a[i], y[i]);
    }
    ArrJEq(m, n);
  }

  lemma {:induction false} ConvergenceObj(x: map<string, Json>, a: map<string, Json>, y: map<string, Json>)
    requires !JEq(Obj(x), Obj(a)) && !JEq(Obj(y), Obj(a)) && !JEq(Obj(x), Obj(y))
    ensures JEq(Merge(Obj(x), Obj(a), Obj(y)), Merge(Obj(y), Obj(a), Obj(x)))
       <==> NoConflict(Obj(x), Obj(a), Obj(y))
    decreases Obj(y), 0
  {
    hide JEq;
    var m, n := Merge(Obj(x), Obj(a), Obj(y)).fields, Merge(Obj(y), Obj(a), Obj(x)).fields;
    forall k | k in y
      ensures JEq(Get(m, k), Get(n, k)) <==> NoConflict(Get(x, k), Get(a, k), y[k])
    {
      MergedKey(x, a, y, k);
      Convergence(Get(x, k), Get(a, k), y[k]);
    }
    forall k | k !in y
      ensures JEq(Get(m, k), Get(n, k))
         <==> JEq(Get(x, k), Get(a, k)) || Get(a, k) == Undef || Get(x, k) == Undef
    {
      MergedKey(x, a, y, k);
      DroppedKey(Get(x, k), Get(a, k));
    }
    ObjJEq(m, n);
  }

  lemma DroppedKey(x: Json, a: Json)
    ensures JEq(Merge(x, a, Undef), Merge(Undef, a, x)) <==> JEq(x, a) || a == Undef || x == Undef
  {
  }

  /** Skipping an untouched key and merging it come to the same value, seen from either side. */
  lemma MergedKey(x: map<string, Json>, a: map<string, Json>, y: map<string, Json>, k: string)
    ensures Get(Merge(Obj(x), Obj(a), Obj(y)).fields, k) == Merge(Get(x, k), Get(a, k), Get(y, k))
    ensures Get(Merge(Obj(y), Obj(a), Obj(x)).fields, k) == Merge(Get(y, k), Get(a, k), Get(x, k))
  {
    MergeGet(x, a, y, k);
    MergeGet(y, a, x, k);
    if JEq(Get(y, k), Get(a, k)) {
      MergeUntouched(Get(x, k), Get(a, k), Get(y, k));
    }
    if JEq(Get(x, k), Get(a, k)) {
      MergeUntouched(Get(y, k), Get(a, k), Get(x, k));
    }
  }

  // ---- No edit is lost ------------------------------------------------------------------

  datatype Step = Key(k: string) | Index(i: nat)

  /** The value at a path; paths that leave the tree read as `undefined`. */
  function At(j: Json, path: seq<Step>): Json
    decreases |path|
  {
    if path == [] then j
    else match (j, path[0])
      case (Obj(m), Key(k)) => At(Get(m, k), path[1..])
      case (Arr(s), Index(i)) => if i < |s| then At(s[i], path[1..]) else Undef
      case _ => Undef
  }

  lemma {:induction false} AtJEq(x: Json, y: Json, path: seq<Step>)
    requires JEq(x, y)
    ensures JEq(At(x, path), At(y, path))
    decreases |path|
  {
    if path != [] {
      match (x, path[0]) {
        case (Obj(m), Key(k)) =>
          ObjJEq(m, y.fields);
          AtJEq(Get(m, k), Get(y.fields, k), path[1..]);
        case (Arr(s), Index(i)) =>
          ArrJEq(s, y.items);
          if i < |s| { AtJEq(s[i], y.items[i], path[1..]); }
        case _ =>
      }
    }
  }

  /** Wherever one process left the ancestor's value alone, the merge shows the other process's
      value: every edit of both sides is in the result. */
  lemma {:induction false} EditsSurvive(x: Json, a: Json, y: Json, path: seq<Step>)
    requires NoConflict(x, a, y)
    ensures JEq(At(y, path), At(a, path)) ==> JEq(At(Merge(x, a, y), path), At(x, path))
    ensures JEq(At(x, path), At(a, path)) ==> JEq(At(Merge(x, a, y), path), At(y, path))
    decreases |path|
  {
    if JEq(y, a) {
      MergeUntouched(x, a, y);
      AtJEq(y, a, path);
    } else if JEq(x, a) {
      MergeAlone(x, a, y);
      AtJEq(Merge(x, a, y), y, path);
      AtJEq(x, a, path);
    } else if JEq(x, y) {
      MergeAgreed(x, a, y);
      AtJEq(Merge(x, a, y), x, path);
      AtJEq(x, y, path);
    } else if path == [] {
    } else if x.Arr? && path[0].Index? {
      var i := path[0].i;
      if i < |x.items| { EditsSurvive(x.items[i], a.items[i], y.items[i], path[1..]); }
    } else if x.Obj? && path[0].Key? {
      var k := path[0].k;
      MergedKey(x.fields, a.fields, y.fields, k);
      EditsSurvive(Get(x.fields, k), Get(a.fields, k), Get(y.fields, k), path[1..]);
    }
  }

  // ---- Who wins a conflict ----------------------------------------------------------------

  /** Values the merge looks into: three plain objects, or three arrays of one length. */
  predicate Descends(d: Json, a: Json, c: Json) {
    || (d.Obj? && a.Obj? && c.Obj?)
    || (d.Arr? && a.Arr? && c.Arr? && |d.items| == |a.items| == |c.items|)
  }

  /** Every value above the end of the path is one the merge looks into. */
  predicate Reached(d: Json, a: Json, c: Json, path: seq<Step>)
    decreases |path|
  {
    path == [] || (Descends(d, a, c) && Reached(At(d, path[..1]), At(a, path[..1]), At(c, path[..1]), path[1..]))
  }

  lemma AtFirst(j: Json, path: seq<Step>)
    requires path != []
    ensures At(j, path) == At(At(j, path[..1]), path[1..])
  {
    assert path[..1][1..] == [];
  }

  /** Where the merge looks, the merged value is the merge of the three values there. */
  lemma {:induction false} MergedAt(d: Json, a: Json, c: Json, path: seq<Step>)
    requires Reached(d, a, c, path)
    ensures At(Merge(d, a, c), path) == Merge(At(d, path), At(a, path), At(c, path))
    decreases |path|
  {
    if path != [] {
      var head, rest := path[..1], path[1..];
      assert head[1..] == [];
      AtFirst(d, path);
      AtFirst(a, path);
      AtFirst(c, path);
      AtFirst(Merge(d, a, c), path);
      if path[0].Key? && d.Obj? { MergedKey(d.fields, a.fields, c.fields, path[0].k); }
      assert At(Merge(d, a, c), head) == Merge(At(d, head), At(a, head), At(c, head));
      MergedAt(At(d, head), At(a, head), At(c, head), rest);
    }
  }

  /** A value that is not looked into is the caller's if the caller changed it, whatever disk holds, and else
      disk's. */
  lemma MergedWhole(d: Json, a: Json, c: Json)
    requires !Descends(d, a, c)
    ensures Merge(d, a, c) == if JEq(c, a) then d else c
  {
  }

  /** A path at which the caller changed the ancestor's value reaches into the merge, or ends below a value
      of the caller's that is taken whole. */
  lemma {:induction false} CallerWinsAt(d: Json, a: Json, c: Json, path: seq<Step>)
    requires !JEq(At(c, path), At(a, path)) && !Descends(At(d, path), At(a, path), At(c, path))
    ensures At(Merge(d, a, c), path) == At(c, path)
    decreases |path|
  {
    if JEq(c, a) {
      AtJEq(c, a, path);
    } else if !Descends(d, a, c) {
      MergedWhole(d, a, c);
    } else if path != [] {
      var head, rest := path[..1], path[1..];
      AtFirst(d, path);
      AtFirst(a, path);
      AtFirst(c, path);
      AtFirst(Merge(d, a, c), path);
      assert Reached(d, a, c, head);
      MergedAt(d, a, c, head);
      CallerWinsAt(At(d, head), At(a, head), At(c, head), rest);
    }
  }

  /** Where the merge looks and the caller changed nothing, disk's value stays as it is. */
  lemma DiskStaysAt(d: Json, a: Json, c: Json, path: seq<Step>)
    requires Reached(d, a, c, path) && JEq(At(c, path), At(a, path))
    ensures At(Merge(d, a, c), path) == At(d, path)
  {
    MergedAt(d, a, c, path);
    MergeUntouched(At(d, path), At(a, path), At(c, path));
  }
}
