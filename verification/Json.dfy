/** JSON values after decoding: object members have no order. */
module Json {
  import opened Text

  datatype Json =
    | Null
    | Bool(b: bool)
    | Num(n: real)
    | Str(s: string)
    | Arr(items: seq<Json>)
    | Obj(fields: map<string, Json>)

  /** One step of a path into a value. */
  datatype Step = Key(key: string) | Index(index: nat)

  function Child(v: Json, step: Step): Option<Json> {
    match (v, step)
    case (Obj(m), Key(k)) => if k in m then Some(m[k]) else None
    case (Arr(xs), Index(i)) => if i < |xs| then Some(xs[i]) else None
    case _ => None
  }

  function Read(v: Json, path: seq<Step>): Option<Json> {
    if path == [] then Some(v)
    else
      match Child(v, path[0])
      case None => None
      case Some(c) => Read(c, path[1..])
  }

  /** What one can see of a value without going into it. */
  datatype Shape = Leaf(v: Json) | Items(count: nat) | Members(keys: set<string>)

  function ShapeOf(v: Json): Shape {
    match v
    case Arr(xs) => Items(|xs|)
    case Obj(m) => Members(m.Keys)
    case _ => Leaf(v)
  }

  function ShapeAt(v: Json, path: seq<Step>): Option<Shape> {
    match Read(v, path)
    case None => None
    case Some(u) => Some(ShapeOf(u))
  }

  lemma ShapeBelow(a: Json, b: Json, step: Step, ca: Json, cb: Json)
    requires forall p :: ShapeAt(a, p) == ShapeAt(b, p)
    requires Child(a, step) == Some(ca) && Child(b, step) == Some(cb)
    ensures forall p :: ShapeAt(ca, p) == ShapeAt(cb, p)
  {
    forall p ensures ShapeAt(ca, p) == ShapeAt(cb, p) {
      var q := [step] + p;
      assert q[1..] == p;
      assert ShapeAt(a, q) == ShapeAt(b, q);
    }
  }

  /** A value is determined by the shapes seen along its paths. */
  lemma {:induction false} ShapesDetermine(a: Json, b: Json)
    requires forall p :: ShapeAt(a, p) == ShapeAt(b, p)
    ensures a == b
  {
    assert ShapeAt(a, []) == ShapeAt(b, []);
    match a
    case Arr(xs) =>
      forall i | 0 <= i < |xs| ensures xs[i] == b.items[i] {
        ShapeBelow(a, b, Index(i), xs[i], b.items[i]);
        ShapesDetermine(xs[i], b.items[i]);
      }
      assert xs == b.items;
    case Obj(m) =>
      forall k | k in m ensures m[k] == b.fields[k] {
        ShapeBelow(a, b, Key(k), m[k], b.fields[k]);
        ShapesDetermine(m[k], b.fields[k]);
      }
      assert m == b.fields;
    case _ =>
  }
}
