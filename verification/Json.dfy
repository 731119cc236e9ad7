/** JSON values as the state store sees them in memory.

    `Undef` is JavaScript's `undefined`: the value of an absent key, and also a value an
    object key may hold explicitly.  The store compares values by their JSON text, which
    drops object keys that hold `undefined`; `Norm` is that text, with key order ignored. */
module Json {

  datatype Json =
    | Undef
    | Null
    | Bool(b: bool)
    | Num(n: int)
    | Str(s: string)
    | Arr(items: seq<Json>)
    | Obj(fields: map<string, Json>)

  /** Property read: an absent key reads as `undefined`. */
  function Get(m: map<string, Json>, k: string): Json {
    if k in m then m[k] else Undef
  }

  /** What survives serialization. */
  function Norm(j: Json): Json {
    match j
    case Arr(items) => Arr(seq(|items|, i requires 0 <= i < |items| => Norm(items[i])))
    case Obj(fields) => Obj(map k | k in fields && fields[k] != Undef :: Norm(fields[k]))
    case _ => j
  }

  /** Two values with the same JSON text. */
  predicate JEq(a: Json, b: Json) {
    Norm(a) == Norm(b)
  }

  lemma ObjJEq(m: map<string, Json>, n: map<string, Json>)
    ensures JEq(Obj(m), Obj(n)) <==> forall k :: JEq(Get(m, k), Get(n, k))
  {
    var mn, nn := Norm(Obj(m)).fields, Norm(Obj(n)).fields;
    forall k
      ensures (k in mn <==> Get(m, k) != Undef) && (k in mn ==> mn[k] == Norm(Get(m, k)))
      ensures (k in nn <==> Get(n, k) != Undef) && (k in nn ==> nn[k] == Norm(Get(n, k)))
    {
    }
    if JEq(Obj(m), Obj(n)) {
      forall k ensures JEq(Get(m, k), Get(n, k)) {
        assert k in mn <==> k in nn;
      }
    }
    if forall k :: JEq(Get(m, k), Get(n, k)) {
      forall k ensures k in mn <==> k in nn {
        assert JEq(Get(m, k), Get(n, k));
      }
      forall k | k in mn ensures mn[k] == nn[k] {
        assert JEq(Get(m, k), Get(n, k));
      }
      assert mn == nn;
    }
  }

  lemma ArrJEq(s: seq<Json>, t: seq<Json>)
    ensures JEq(Arr(s), Arr(t)) <==> |s| == |t| && forall i :: 0 <= i < |s| ==> JEq(s[i], t[i])
  {
    var sn, tn := Norm(Arr(s)).items, Norm(Arr(t)).items;
    if sn == tn {
      forall i | 0 <= i < |s| ensures JEq(s[i], t[i]) {
        assert sn[i] == tn[i];
      }
    }
  }

  /** A value fresh from the parser holds no explicit `undefined`. */
  predicate Parsed(j: Json) {
    Norm(j) == j
  }

  lemma {:induction false} NormIdempotent(j: Json)
    ensures Norm(Norm(j)) == Norm(j)
  {
    match j
    case Arr(items) =>
      forall i | 0 <= i < |items| ensures Norm(Norm(items[i])) == Norm(items[i]) {
        NormIdempotent(items[i]);
      }
      assert Norm(Norm(j)).items == Norm(j).items;
    case Obj(fields) =>
      forall k | k in fields ensures Norm(Norm(fields[k])) == Norm(fields[k]) {
        NormIdempotent(fields[k]);
      }
      assert Norm(Norm(j)).fields == Norm(j).fields;
    case _ =>
  }

  lemma ParsedObj(m: map<string, Json>)
    requires Parsed(Obj(m))
    ensures forall k :: k in m ==> m[k] != Undef && Parsed(m[k])
  {
    var n := Norm(Obj(m)).fields;
    assert forall k :: k in m ==> k in n && n[k] == Norm(m[k]);
  }
}
