/** Beans: persistent maps and vectors backed by mutable JavaScript objects and arrays.

    The keyword beans of `bean` and `->clj`: keys are keywords, a property is a keyword's
    name, and there is no transform. */
module Beans {

  datatype Option<T> = None | Some(value: T)
  datatype Result<T> = Ok(value: T) | Err(message: string)

  datatype Key = Keyword(name: string) | OtherKey(id: int)

  /** Any JavaScript or ClojureScript value; `PMap` and `PVec` are ClojureScript's own
      persistent collections. */
  datatype Val =
    | Prim(n: int)
    | JsObj(o: JsObject)
    | JsArr(a: JsArray)
    | ABean(b: Bean)
    | AVector(v: ArrayVector)
    | PMap(m: map<Key, Val>)
    | PVec(s: seq<Val>)
    | Other(id: int)

  // ---------------------------------------------------------------- JavaScript storage

  class JsObject {
    var props: map<string, Val>
    var order: seq<string>       // `js-keys`

    constructor (props: map<string, Val>, order: seq<string>)
      requires Lists(order, props.Keys)
      ensures this.props == props && this.order == order && Valid()
    {
      this.props, this.order := props, order;
    }

    ghost predicate Valid()
      reads this
    {
      Lists(order, props.Keys)
    }

    method Set(p: string, v: Val)
      requires Valid()
      modifies this
      ensures Valid() && props == old(props)[p := v]
    {
      order := if p in props then order else order + [p];
      props := props[p := v];
    }

    method Delete(p: string)
      requires Valid()
      modifies this
      ensures Valid() && props == old(props) - {p}
    {
      order := Without(order, p);
      props := props - {p};
    }

    /** `gobj/clone`, one level deep. */
    method Clone() returns (o: JsObject)
      requires Valid()
      ensures fresh(o) && o.Valid() && o.props == props
    {
      o := new JsObject(props, order);
    }
  }

  class JsArray {
    var items: seq<Val>

    constructor (items: seq<Val>)
      ensures this.items == items
    {
      this.items := items;
    }
  }

  ghost predicate Distinct(order: seq<string>) {
    forall i, j :: 0 <= i < j < |order| ==> order[i] != order[j]
  }

  /** Every name of the set, each once. */
  ghost predicate Lists(order: seq<string>, names: set<string>) {
    (forall p :: p in order <==> p in names) && Distinct(order)
  }

  function Without(order: seq<string>, p: string): (r: seq<string>)
    requires Distinct(order)
    ensures Distinct(r) && forall q :: q in r <==> q in order && q != p
  {
    if order == [] then [] else
      assert order[0] !in order[1..];
      var rest := Without(order[1..], p);
      DistinctCons(order[0], rest);
      if order[0] == p then rest else [order[0]] + rest
  }

  lemma DistinctCons(p: string, order: seq<string>)
    requires Distinct(order) && p !in order
    ensures Distinct([p] + order)
  {
    var r := [p] + order;
    forall i, j | 0 <= i < j < |r| ensures r[i] != r[j] {
      assert r[j] == order[j - 1];
    }
  }

  lemma {:induction false} ListsCount(order: seq<string>, names: set<string>)
    requires Lists(order, names)
    ensures |order| == |names|
    decreases |order|
  {
    if order == [] {
      assert names == {};
    } else {
      var rest := names - {order[0]};
      assert forall p :: p in order[1..] <==> p in rest;
      ListsCount(order[1..], rest);
    }
  }

  /** Some listing of a set of names. */
  method Listing(names: set<string>) returns (order: seq<string>)
    ensures Lists(order, names)
  {
    order := [];
    var rest := names;
    while rest != {}
      invariant rest <= names && Lists(order, names - rest)
      decreases |rest|
    {
      var p :| p in rest;
      order := order + [p];
      rest := rest - {p};
    }
  }

  // ---------------------------------------------------------------- conversion and sight

  /** What a user sees of a value: a bean is the object it shows and how, a vector the array. */
  datatype Obs = OBean(o: JsObject, recursive: bool) | OVector(a: JsArray) | ORaw(v: Val)

  function See(v: Val): Obs {
    match v
    case ABean(b) => OBean(b.obj, b.recursive)
    case AVector(v) => OVector(v.arr)
    case _ => ORaw(v)
  }

  /** What reading a stored property or element shows: `->val` when recursive. */
  function SeeStored(v: Val, recursive: bool): Obs {
    match v
    case JsObj(o) => if recursive then OBean(o, true) else ORaw(v)
    case JsArr(a) => if recursive then OVector(a) else ORaw(v)
    case _ => See(v)
  }

  /** A value as stored, or newly wrapped: its own object or array, with empty caches. */
  twostate predicate Wraps(new w: Val, new v: Val)
    reads if w.ABean? then {w.b} else {}
  {
    || w == v
    || (w.ABean? && fresh(w.b) && v == JsObj(w.b.obj) && w.b.arr.None? && w.b.cnt.None?)
    || (w.AVector? && v == JsArr(w.v.arr))
  }

  /** `->val` */
  method ToVal(v: Val) returns (r: Val)
    ensures See(r) == SeeStored(v, true) && Wraps(r, v)
    ensures v.JsObj? ==> r.ABean? && r.b.obj == v.o && r.b.recursive
    ensures v.JsArr? ==> r.AVector? && r.v.arr == v.a
    ensures !v.JsObj? && !v.JsArr? ==> r == v
  {
    match v {
      case JsObj(o) =>
        var b := new Bean(o, true, None, None);
        r := ABean(b);
      case JsArr(a) =>
        var w := new ArrayVector(a);
        r := AVector(w);
      case _ => r := v;
    }
  }

  method MaybeToVal(v: Val, recursive: bool) returns (r: Val)
    ensures See(r) == SeeStored(v, recursive) && Wraps(r, v)
    ensures !recursive ==> r == v
  {
    if recursive {
      r := ToVal(v);
    } else {
      r := v;
    }
  }

  function Unwrap(v: Val): Val {
    match v
    case ABean(b) => JsObj(b.obj)
    case AVector(w) => JsArr(w.arr)
    case _ => v
  }

  predicate CompatibleValue(v: Val, recursive: bool) {
    v.Prim? || (!v.PMap? && !v.PVec? && !(recursive && (v.JsObj? || v.JsArr?)))
  }

  predicate IsSnapshot(k: Key, v: Val, recursive: bool) {
    !(k.Keyword? && CompatibleValue(v, recursive))
  }

  /** Storing unwraps and reading wraps again. That is the identity on a compatible value,
      except that a bean that was not recursive comes back recursive. */
  lemma WrapUnwrap(v: Val)
    requires CompatibleValue(v, true)
    ensures SeeStored(Unwrap(v), true) == See(v) <==> !(v.ABean? && !v.b.recursive)
  {
  }

  /** The other values are the ones a snapshot is needed for: stored as they are, a nested
      object or array would come back as a bean or vector. */
  lemma SnapshotNeeded(k: Key, v: Val)
    ensures SeeStored(v, true) != See(v) <==> v.JsObj? || v.JsArr?
    ensures IsSnapshot(k, v, true) <==> k.OtherKey? || v.PMap? || v.PVec? || SeeStored(v, true) != See(v)
    ensures IsSnapshot(k, v, false) <==> k.OtherKey? || v.PMap? || v.PVec?
  {
  }

  /** What reading shows, by what is stored: a bean that is not recursive shows the stored value
      itself, a recursive one a nested object or array as a bean or vector over it. */
  lemma StoredSeen(v: Val)
    ensures SeeStored(v, false) == See(v) && (v.JsObj? || v.JsArr? ==> See(v) == ORaw(v))
    ensures v.JsObj? ==> SeeStored(v, true) == OBean(v.o, true)
    ensures v.JsArr? ==> SeeStored(v, true) == OVector(v.a)
    ensures v.ABean? ==> SeeStored(v, true) == OBean(v.b.obj, v.b.recursive)
    ensures v.AVector? ==> SeeStored(v, true) == OVector(v.v.arr)
    ensures v.Prim? || v.PMap? || v.PVec? || v.Other? ==> SeeStored(v, true) == ORaw(v)
  {
  }

  /** What is stored in place of a bean or a vector is its own object or array; nothing else is
      changed. */
  lemma Unwrapped(v: Val)
    ensures v.ABean? ==> Unwrap(v) == JsObj(v.b.obj)
    ensures v.AVector? ==> Unwrap(v) == JsArr(v.v.arr)
    ensures !v.ABean? && !v.AVector? ==> Unwrap(v) == v
  {
  }

  /** A value that was stored, or put in a snapshot instead, is read as itself, except that a bean
      that was not recursive comes back recursive from a recursive collection. */
  lemma AddedShows(k: Key, v: Val, recursive: bool)
    ensures (if IsSnapshot(k, v, recursive) then See(v) else Added(v, recursive)) == See(v)
      <==> !(k.Keyword? && recursive && v.ABean? && !v.b.recursive)
  {
  }

  function KeyToProp(k: Key): string {
    match k case Keyword(name) => name case OtherKey(_) => "null"
  }

  /** The map a bean over these properties shows. */
  function Shown(props: map<string, Val>, recursive: bool): map<Key, Obs> {
    map p | p in props :: Keyword(p) := SeeStored(props[p], recursive)
  }

  function ShownMap(m: map<Key, Val>): map<Key, Obs> {
    map k | k in m :: See(m[k])
  }

  function ShownSeq(items: seq<Val>): (r: seq<Obs>)
    ensures |r| == |items|
  {
    seq(|items|, i requires 0 <= i < |items| => SeeStored(items[i], true))
  }

  function SeenSeq(items: seq<Val>): (r: seq<Obs>)
    ensures |r| == |items|
  {
    seq(|items|, i requires 0 <= i < |items| => See(items[i]))
  }

  /** What a storing operation adds to the shown value. */
  function Added(v: Val, recursive: bool): Obs {
    SeeStored(if recursive then Unwrap(v) else v, recursive)
  }

  lemma ShownSet(props: map<string, Val>, recursive: bool, p: string, v: Val)
    ensures Shown(props[p := v], recursive) == Shown(props, recursive)[Keyword(p) := SeeStored(v, recursive)]
  {
  }

  lemma ShownMapSet(m: map<Key, Val>, k: Key, v: Val)
    ensures ShownMap(m[k := v]) == ShownMap(m)[k := See(v)]
  {
  }

  lemma ShownDelete(props: map<string, Val>, recursive: bool, p: string)
    ensures Shown(props - {p}, recursive) == Shown(props, recursive) - {Keyword(p)}
  {
  }

  /** Removing the property a key reads is removing the key, except for a key that is no keyword
      when there is a property named "null". */
  lemma DeleteExactly(props: map<string, Val>, recursive: bool, k: Key)
    ensures Shown(props - {KeyToProp(k)}, recursive) == Shown(props, recursive) - {k}
      <==> k.Keyword? || "null" !in props
  {
    ShownDelete(props, recursive, KeyToProp(k));
    if k.OtherKey? {
      assert k !in Shown(props, recursive);
      assert "null" in props ==> Keyword("null") in Shown(props, recursive);
    }
  }

  lemma {:induction false} KeywordsCount(names: set<string>)
    ensures |set p | p in names :: Keyword(p)| == |names|
    decreases |names|
  {
    var ks := set p | p in names :: Keyword(p);
    if names == {} {
      assert ks == {};
    } else {
      var p :| p in names;
      KeywordsCount(names - {p});
      assert ks == (set q | q in names - {p} :: Keyword(q)) + {Keyword(p)};
    }
  }

  lemma ShownCount(props: map<string, Val>, recursive: bool)
    ensures |Shown(props, recursive)| == |props|
  {
    KeywordsCount(props.Keys);
    assert Shown(props, recursive).Keys == set p | p in props.Keys :: Keyword(p);
  }

  lemma SnapshotShows(m: map<Key, Val>, props: map<string, Val>, recursive: bool)
    requires forall k :: k in m <==> k.Keyword? && k.name in props
    requires forall k :: k in m ==> See(m[k]) == SeeStored(props[k.name], recursive)
    ensures ShownMap(m) == Shown(props, recursive)
  {
    assert forall p :: p in props ==> Keyword(p) in m && Keyword(p).name == p;
  }

  /** `snapshot`: a persistent map of what the properties show. */
  method Snapshot(props: map<string, Val>, recursive: bool) returns (m: map<Key, Val>)
    ensures ShownMap(m) == Shown(props, recursive)
    ensures forall k :: k in m ==> k.Keyword? && k.name in props && Wraps(m[k], props[k.name])
    ensures !recursive ==> forall k :: k in m ==> m[k] == props[k.name]
  {
    hide Shown, ShownMap;
    m := map[];
    var rest := props;
    while rest != map[]
      invariant rest.Keys <= props.Keys && forall p :: p in rest ==> rest[p] == props[p]
      invariant forall k :: k in m <==> k.Keyword? && k.name in props && k.name !in rest
      invariant forall k :: k in m ==> See(m[k]) == SeeStored(props[k.name], recursive)
      invariant forall k :: k in m ==> Wraps(m[k], props[k.name])
      invariant !recursive ==> forall k :: k in m ==> m[k] == props[k.name]
      decreases |rest|
    {
      var p :| p in rest;
      var v := MaybeToVal(rest[p], recursive);
      m := m[Keyword(p) := v];
      assert |(rest - {p}).Keys| < |rest.Keys| by {
        assert rest.Keys == (rest - {p}).Keys + {p};
      }
      rest := rest - {p};
    }
    SnapshotShows(m, props, recursive);
  }

  // ---------------------------------------------------------------- Bean

  class Bean {
    const obj: JsObject
    const recursive: bool
    var arr: Option<seq<string>>   // __arr
    var cnt: Option<nat>           // __cnt

    constructor (obj: JsObject, recursive: bool, arr: Option<seq<string>>, cnt: Option<nat>)
      ensures this.obj == obj && this.recursive == recursive && this.arr == arr && this.cnt == cnt
    {
      this.obj, this.recursive, this.arr, this.cnt := obj, recursive, arr, cnt;
    }

    /** The caches agree with the backing object. */
    ghost predicate Valid()
      reads this, obj
    {
      && obj.Valid()
      && (arr.Some? ==> arr.value == obj.order)
      && (cnt.Some? ==> cnt.value == |obj.props|)
    }

    ghost function Model(): map<Key, Obs>
      reads obj
    {
      Shown(obj.props, recursive)
    }

    /** `-lookup`. It is the map's lookup for keywords; any other key reads the property
        named "null", and so agrees with the map just when there is no such property. */
    method Lookup(k: Key) returns (r: Option<Val>)
      requires Valid()
      ensures k.Keyword? ==> (r.Some? <==> k in Model()) && (r.Some? ==> See(r.value) == Model()[k])
      ensures k.OtherKey? ==> (r.None? <==> "null" !in obj.props)
      ensures r.Some? <==> Keyword(KeyToProp(k)) in Model()
      ensures r.Some? ==> See(r.value) == Model()[Keyword(KeyToProp(k))]
      ensures r.Some? ==> KeyToProp(k) in obj.props && See(r.value) == SeeStored(obj.props[KeyToProp(k)], recursive)
      ensures r.Some? ==> Wraps(r.value, obj.props[KeyToProp(k)])
      ensures r.Some? && !recursive ==> r.value == obj.props[KeyToProp(k)]
    {
      if KeyToProp(k) in obj.props {
        var v := MaybeToVal(obj.props[KeyToProp(k)], recursive);
        r := Some(v);
      } else {
        r := None;
      }
    }

    /** `-count`, through both caches. */
    method Count() returns (n: nat)
      requires Valid()
      modifies this
      ensures Valid() && n == |Model()| && cnt == Some(n)
    {
      ListsCount(obj.order, obj.props.Keys);
      ShownCount(obj.props, recursive);
      if cnt.None? {
        if arr.None? {
          arr := Some(obj.order);
        }
        cnt := Some(|arr.value|);
      }
      n := cnt.value;
    }

    /** The keys `-seq` goes through. */
    method Keys() returns (ks: seq<string>)
      requires Valid()
      modifies this
      ensures Valid() && Lists(ks, obj.props.Keys) && arr == Some(ks)
    {
      if arr.None? {
        arr := Some(obj.order);
      }
      ks := arr.value;
    }

    /** `-assoc`: a bean over a changed copy, or a snapshot with the entry added. */
    method Assoc(k: Key, v: Val) returns (r: Val)
      requires Valid()
      ensures IsSnapshot(k, v, recursive) ==> r.PMap? && ShownMap(r.m) == Model()[k := See(v)]
      ensures r.ABean? ==> fresh(r.b) && fresh(r.b.obj) && r.b.Valid()
      ensures !IsSnapshot(k, v, recursive) ==>
        && r.ABean? && r.b.recursive == recursive
        && r.b.obj.props == obj.props[KeyToProp(k) := if recursive then Unwrap(v) else v]
        && r.b.Model() == Model()[k := Added(v, recursive)]
      ensures r.PMap? ==> forall j :: j in r.m ==>
        (j == k && r.m[j] == v) || (j.Keyword? && j.name in obj.props && Wraps(r.m[j], obj.props[j.name]))
    {
      hide Shown, ShownMap;
      if IsSnapshot(k, v, recursive) {
        var m := Snapshot(obj.props, recursive);
        ShownMapSet(m, k, v);
        r := PMap(m[k := v]);
      } else {
        var o := obj.Clone();
        o.Set(KeyToProp(k), if recursive then Unwrap(v) else v);
        ShownSet(obj.props, recursive, KeyToProp(k), if recursive then Unwrap(v) else v);
        var b := new Bean(o, recursive, None, None);
        r := ABean(b);
      }
    }

    /** `-dissoc`; a key that is no keyword removes the property named "null". */
    method Dissoc(k: Key) returns (b: Bean)
      requires Valid()
      ensures fresh(b) && fresh(b.obj) && b.Valid() && b.recursive == recursive
      ensures b.obj.props == obj.props - {KeyToProp(k)}
      ensures b.Model() == Model() - {Keyword(KeyToProp(k))}
      ensures b.Model() == Model() - {k} <==> k.Keyword? || "null" !in obj.props
    {
      var o := obj.Clone();
      o.Delete(KeyToProp(k));
      ShownDelete(obj.props, recursive, KeyToProp(k));
      DeleteExactly(obj.props, recursive, k);
      b := new Bean(o, recursive, None, None);
    }

    /** `-as-transient`: over a clone, with the count carried along. */
    method AsTransient() returns (t: TransientBean)
      requires Valid()
      ensures fresh(t) && fresh(t.obj) && t.Valid() && t.editable && t.recursive == recursive
      ensures t.obj.props == obj.props && t.Model() == Model()
    {
      var o := obj.Clone();
      t := new TransientBean(o, recursive, cnt);
    }
  }

  // ---------------------------------------------------------------- ClojureScript's own transients

  /** What `assoc!` and `conj!` give on the snapshot branch. */
  class CljTransientMap {
    var contents: map<Key, Val>

    constructor (contents: map<Key, Val>)
      ensures this.contents == contents
    {
      this.contents := contents;
    }

    method Assoc(k: Key, v: Val)
      modifies this
      ensures contents == old(contents)[k := v]
    {
      contents := contents[k := v];
    }
  }

  class CljTransientVector {
    var contents: seq<Val>

    constructor (contents: seq<Val>)
      ensures this.contents == contents
    {
      this.contents := contents;
    }

    method Conj(v: Val)
      modifies this
      ensures contents == old(contents) + [v]
    {
      contents := contents + [v];
    }

    method AssocN(n: nat, v: Val)
      requires n < |contents|
      modifies this
      ensures contents == old(contents)[n := v]
    {
      contents := contents[n := v];
    }
  }

  // ---------------------------------------------------------------- TransientBean

  class TransientBean {
    var editable: bool
    const obj: JsObject
    const recursive: bool
    var cnt: Option<nat>

    constructor (obj: JsObject, recursive: bool, cnt: Option<nat>)
      ensures this.obj == obj && this.recursive == recursive && this.cnt == cnt && editable
    {
      this.obj, this.recursive, this.cnt, editable := obj, recursive, cnt, true;
    }

    ghost predicate Valid()
      reads this, obj
    {
      obj.Valid() && (cnt.Some? ==> cnt.value == |obj.props|)
    }

    ghost function Model(): map<Key, Obs>
      reads obj
    {
      Shown(obj.props, recursive)
    }

    method Lookup(k: Key) returns (r: Result<Option<Val>>)
      requires Valid()
      ensures !editable ==> r.Err?
      ensures editable ==> r.Ok? && (k.Keyword? ==>
        (r.value.Some? <==> k in Model()) && (r.value.Some? ==> See(r.value.value) == Model()[k]))
      ensures editable && k.OtherKey? ==> (r.value.None? <==> "null" !in obj.props)
      ensures editable ==> (r.value.Some? <==> Keyword(KeyToProp(k)) in Model())
      ensures editable && r.value.Some? ==> See(r.value.value) == Model()[Keyword(KeyToProp(k))]
      ensures r.Ok? && r.value.Some? ==>
        KeyToProp(k) in obj.props && Wraps(r.value.value, obj.props[KeyToProp(k)])
      ensures r.Ok? && r.value.Some? && !recursive ==> r.value.value == obj.props[KeyToProp(k)]
    {
      if !editable {
        return Err("lookup after persistent!");
      }
      if KeyToProp(k) in obj.props {
        var v := MaybeToVal(obj.props[KeyToProp(k)], recursive);
        r := Ok(Some(v));
      } else {
        r := Ok(None);
      }
    }

    method Count() returns (n: nat)
      requires Valid()
      modifies this`cnt
      ensures Valid() && n == |Model()|
    {
      ListsCount(obj.order, obj.props.Keys);
      ShownCount(obj.props, recursive);
      if cnt.None? {
        cnt := Some(|obj.order|);
      }
      n := cnt.value;
    }

    /** `-assoc!`: in place, or ClojureScript's own transient over a snapshot, leaving this one
        as it was. */
    method Assoc(k: Key, v: Val) returns (r: Result<Option<CljTransientMap>>)
      requires Valid()
      modifies this`cnt, if editable && !IsSnapshot(k, v, recursive) then {obj} else {}
      ensures Valid() && editable == old(editable)
      ensures !editable ==> r.Err? && obj.props == old(obj.props)
      ensures editable && IsSnapshot(k, v, recursive) ==>
        && r.Ok? && r.value.Some? && ShownMap(r.value.value.contents) == old(Model())[k := See(v)]
        && obj.props == old(obj.props)
      ensures editable && !IsSnapshot(k, v, recursive) ==>
        && r == Ok(None) && Model() == old(Model())[k := Added(v, recursive)]
        && obj.props == old(obj.props)[KeyToProp(k) := if recursive then Unwrap(v) else v]
      ensures r.Ok? && r.value.Some? ==> fresh(r.value.value) && forall j :: j in r.value.value.contents ==>
        var w := r.value.value.contents[j];
        (j == k && w == v) || (j.Keyword? && j.name in obj.props && Wraps(w, obj.props[j.name]))
    {
      hide Shown, ShownMap;
      if !editable {
        return Err("assoc! after persistent!");
      }
      if IsSnapshot(k, v, recursive) {
        var m := Snapshot(obj.props, recursive);
        ShownMapSet(m, k, v);
        var t := new CljTransientMap(m);
        t.Assoc(k, v);
        r := Ok(Some(t));
      } else {
        ShownSet(obj.props, recursive, KeyToProp(k), if recursive then Unwrap(v) else v);
        obj.Set(KeyToProp(k), if recursive then Unwrap(v) else v);
        cnt := None;
        r := Ok(None);
      }
    }

    /** `-dissoc!` */
    method Dissoc(k: Key) returns (r: Result<()>)
      requires Valid()
      modifies this`cnt, if editable then {obj} else {}
      ensures Valid() && editable == old(editable) && (r.Ok? <==> editable)
      ensures obj.props == if editable then old(obj.props) - {KeyToProp(k)} else old(obj.props)
      ensures editable ==> Model() == old(Model()) - {Keyword(KeyToProp(k))}
      ensures editable ==> (Model() == old(Model()) - {k} <==> k.Keyword? || "null" !in old(obj.props))
    {
      if !editable {
        return Err("dissoc! after persistent!");
      }
      ShownDelete(obj.props, recursive, KeyToProp(k));
      DeleteExactly(obj.props, recursive, k);
      obj.Delete(KeyToProp(k));
      cnt := None;
      r := Ok(());
    }

    /** `-persistent!`: the bean takes the object over, and this transient is frozen. */
    method Persistent() returns (r: Result<Bean>)
      requires Valid()
      modifies this`editable
      ensures Valid() && !editable && (r.Ok? <==> old(editable))
      ensures r.Ok? ==> fresh(r.value) && r.value.Valid() && r.value.obj == obj && r.value.recursive == recursive
      ensures r.Ok? ==> r.value.Model() == old(Model())
    {
      if !editable {
        return Err("persistent! called twice");
      }
      editable := false;
      var b := new Bean(obj, recursive, None, cnt);
      r := Ok(b);
    }
  }

  // ---------------------------------------------------------------- ArrayVector

  /** `snapshot-arr` */
  method SnapshotArr(items: seq<Val>) returns (s: seq<Val>)
    ensures SeenSeq(s) == ShownSeq(items)
    ensures |s| == |items| && forall i :: 0 <= i < |s| ==> Wraps(s[i], items[i])
  {
    s := [];
    for i := 0 to |items|
      invariant |s| == i
      invariant forall j :: 0 <= j < i ==> See(s[j]) == SeeStored(items[j], true)
      invariant forall j :: 0 <= j < i ==> Wraps(s[j], items[j])
    {
      var v := ToVal(items[i]);
      s := s + [v];
    }
  }

  class ArrayVector {
    const arr: JsArray

    constructor (arr: JsArray)
      ensures this.arr == arr
    {
      this.arr := arr;
    }

    ghost function Model(): seq<Obs>
      reads arr
    {
      ShownSeq(arr.items)
    }

    method Nth(n: int) returns (r: Result<Val>)
      ensures r.Ok? <==> 0 <= n < |Model()|
      ensures r.Ok? ==> See(r.value) == Model()[n]
      ensures r.Ok? ==> 0 <= n < |arr.items| && Wraps(r.value, arr.items[n])
    {
      if 0 <= n < |arr.items| {
        var v := ToVal(arr.items[n]);
        r := Ok(v);
      } else {
        r := Err("No item in vector");
      }
    }

    /** `-conj`: a vector over an extended copy, or a snapshot with the value added. */
    method Conj(v: Val) returns (r: Val)
      ensures !CompatibleValue(v, true) ==> r.PVec? && SeenSeq(r.s) == Model() + [See(v)]
      ensures CompatibleValue(v, true) ==>
        && r.AVector? && fresh(r.v) && fresh(r.v.arr) && r.v.arr.items == arr.items + [Unwrap(v)]
        && r.v.Model() == Model() + [Added(v, true)]
      ensures r.PVec? ==> |r.s| == |arr.items| + 1 && r.s[|arr.items|] == v
      ensures r.PVec? ==> forall i :: 0 <= i < |arr.items| ==> Wraps(r.s[i], arr.items[i])
    {
      if !CompatibleValue(v, true) {
        var s := SnapshotArr(arr.items);
        assert SeenSeq(s + [v]) == SeenSeq(s) + [See(v)];
        r := PVec(s + [v]);
      } else {
        var a := new JsArray(arr.items + [Unwrap(v)]);
        var w := new ArrayVector(a);
        assert ShownSeq(a.items) == ShownSeq(arr.items) + [Added(v, true)];
        r := AVector(w);
      }
    }

    /** `-assoc-n`: at the length it appends, beyond it fails. */
    method AssocN(n: int, v: Val) returns (r: Result<Val>)
      ensures r.Ok? <==> 0 <= n <= |Model()|
      ensures 0 <= n < |Model()| && !CompatibleValue(v, true) ==>
        r.value.PVec? && SeenSeq(r.value.s) == Model()[n := See(v)]
      ensures 0 <= n < |Model()| && CompatibleValue(v, true) ==>
        && r.value.AVector? && fresh(r.value.v.arr) && r.value.v.arr.items == arr.items[n := Unwrap(v)]
        && r.value.v.Model() == Model()[n := Added(v, true)]
      ensures n == |Model()| && !CompatibleValue(v, true) ==> r.value.PVec? && SeenSeq(r.value.s) == Model() + [See(v)]
      ensures n == |Model()| && CompatibleValue(v, true) ==>
        && r.value.AVector? && fresh(r.value.v.arr) && r.value.v.arr.items == arr.items + [Unwrap(v)]
        && r.value.v.Model() == Model() + [Added(v, true)]
      ensures r.Ok? && r.value.PVec? ==> forall i :: 0 <= i < |r.value.s| ==>
        r.value.s[i] == v || (i < |arr.items| && Wraps(r.value.s[i], arr.items[i]))
    {
      if 0 <= n < |arr.items| {
        if !CompatibleValue(v, true) {
          var s := SnapshotArr(arr.items);
          assert SeenSeq(s[n := v]) == SeenSeq(s)[n := See(v)];
          r := Ok(PVec(s[n := v]));
        } else {
          var a := new JsArray(arr.items[n := Unwrap(v)]);
          var w := new ArrayVector(a);
          assert ShownSeq(a.items) == ShownSeq(arr.items)[n := Added(v, true)];
          r := Ok(AVector(w));
        }
      } else if n == |arr.items| {
        var w := Conj(v);
        r := Ok(w);
      } else {
        r := Err("Index out of bounds");
      }
    }

    /** `-pop` */
    method Pop() returns (r: Result<ArrayVector>)
      ensures r.Ok? <==> Model() != []
      ensures r.Ok? ==> fresh(r.value) && fresh(r.value.arr) && r.value.arr.items == arr.items[..|arr.items| - 1]
      ensures r.Ok? ==> r.value.Model() == Model()[..|Model()| - 1]
    {
      if |arr.items| == 0 {
        r := Err("Can't pop empty vector");
      } else {
        var a := new JsArray(if |arr.items| == 1 then [] else arr.items[..|arr.items| - 1]);
        var w := new ArrayVector(a);
        assert ShownSeq(a.items) == ShownSeq(arr.items)[..|arr.items| - 1];
        r := Ok(w);
      }
    }

    method AsTransient() returns (t: TransientArrayVector)
      ensures fresh(t) && fresh(t.arr) && t.editable && t.arr.items == arr.items && t.Model() == Model()
    {
      var a := new JsArray(arr.items);
      t := new TransientArrayVector(a);
    }
  }

  // ---------------------------------------------------------------- TransientArrayVector

  class TransientArrayVector {
    var editable: bool
    var arr: JsArray

    constructor (arr: JsArray)
      ensures this.arr == arr && editable
    {
      this.arr, editable := arr, true;
    }

    ghost function Model(): seq<Obs>
      reads this, arr
    {
      ShownSeq(arr.items)
    }

    /** `-conj!` */
    method Conj(v: Val) returns (r: Result<Option<CljTransientVector>>)
      modifies if editable && CompatibleValue(v, true) then {arr} else {}
      ensures !editable ==> r.Err? && arr.items == old(arr.items)
      ensures editable && !CompatibleValue(v, true) ==>
        && r.Ok? && r.value.Some? && SeenSeq(r.value.value.contents) == old(Model()) + [See(v)]
        && arr.items == old(arr.items)
      ensures editable && CompatibleValue(v, true) ==>
        && r == Ok(None) && Model() == old(Model()) + [Added(v, true)] && arr.items == old(arr.items) + [Unwrap(v)]
      ensures r.Ok? && r.value.Some? ==>
        && fresh(r.value.value)
        && forall i :: 0 <= i < |r.value.value.contents| ==>
          r.value.value.contents[i] == v || (i < |arr.items| && Wraps(r.value.value.contents[i], arr.items[i]))
    {
      if !editable {
        return Err("conj! after persistent!");
      }
      if !CompatibleValue(v, true) {
        var s := SnapshotArr(arr.items);
        assert SeenSeq(s + [v]) == SeenSeq(s) + [See(v)];
        var t := new CljTransientVector(s);
        t.Conj(v);
        r := Ok(Some(t));
      } else {
        assert ShownSeq(arr.items + [Unwrap(v)]) == ShownSeq(arr.items) + [Added(v, true)];
        arr.items := arr.items + [Unwrap(v)];
        r := Ok(None);
      }
    }

    /** `-assoc-n!` */
    method AssocN(n: int, v: Val) returns (r: Result<Option<CljTransientVector>>)
      modifies if editable && CompatibleValue(v, true) then {arr} else {}
      ensures r.Ok? <==> editable && 0 <= n <= old(|arr.items|)
      ensures !(r.Ok? && r.value.None?) ==> arr.items == old(arr.items)
      ensures r.Ok? && CompatibleValue(v, true) ==>
        && r.value.None?
        && arr.items == (if n < old(|arr.items|) then old(arr.items)[n := Unwrap(v)] else old(arr.items) + [Unwrap(v)])
        && Model() ==
          (if n < old(|arr.items|) then old(Model())[n := Added(v, true)] else old(Model()) + [Added(v, true)])
      ensures r.Ok? && !CompatibleValue(v, true) ==>
        && r.value.Some?
        && SeenSeq(r.value.value.contents) ==
          (if n < old(|arr.items|) then old(Model())[n := See(v)] else old(Model()) + [See(v)])
      ensures r.Ok? && r.value.Some? ==>
        && fresh(r.value.value)
        && forall i :: 0 <= i < |r.value.value.contents| ==>
          r.value.value.contents[i] == v || (i < |arr.items| && Wraps(r.value.value.contents[i], arr.items[i]))
    {
      if !editable {
        return Err("assoc! after persistent!");
      }
      if n < 0 || n > |arr.items| {
        return Err("Index out of bounds");
      }
      if n == |arr.items| {
        r := Conj(v);
      } else if !CompatibleValue(v, true) {
        var s := SnapshotArr(arr.items);
        assert SeenSeq(s[n := v]) == SeenSeq(s)[n := See(v)];
        var t := new CljTransientVector(s);
        t.AssocN(n, v);
        r := Ok(Some(t));
      } else {
        assert ShownSeq(arr.items[n := Unwrap(v)]) == ShownSeq(arr.items)[n := Added(v, true)];
        arr.items := arr.items[n := Unwrap(v)];
        r := Ok(None);
      }
    }

    /** `-pop!`: the array is replaced, not shortened. */
    method Pop() returns (r: Result<()>)
      modifies this`arr
      ensures r.Ok? <==> editable && old(Model()) != []
      ensures r.Err? ==> arr == old(arr)
      ensures r.Ok? ==>
        fresh(arr) && arr.items == old(arr.items[..|arr.items| - 1]) && Model() == old(Model()[..|Model()| - 1])
    {
      if !editable {
        return Err("pop! after persistent!");
      }
      if |arr.items| == 0 {
        return Err("Can't pop empty vector");
      }
      assert ShownSeq(arr.items[..|arr.items| - 1]) == ShownSeq(arr.items)[..|arr.items| - 1];
      arr := new JsArray(arr.items[..|arr.items| - 1]);
      r := Ok(());
    }

    /** `-persistent!` */
    method Persistent() returns (r: Result<ArrayVector>)
      modifies this`editable
      ensures !editable && (r.Ok? <==> old(editable))
      ensures r.Ok? ==> fresh(r.value) && r.value.arr == arr && r.value.Model() == old(Model())
    {
      if !editable {
        return Err("persistent! called twice");
      }
      editable := false;
      var w := new ArrayVector(arr);
      r := Ok(w);
    }
  }

  // ---------------------------------------------------------------- where it is otherwise

  /** A bean that is not recursive, put into one that is: it comes back recursive. */
  method ComesBackRecursive() returns (stored: Val, back: Val)
    ensures See(stored) != See(back)
  {
    hide Shown, ShownMap;
    var o := new JsObject(map[], []);
    var inner := new Bean(o, false, None, None);
    var p := new JsObject(map[], []);
    var outer := new Bean(p, true, None, None);
    stored := ABean(inner);
    var r := outer.Assoc(Keyword("k"), stored);
    var found := r.b.Lookup(Keyword("k"));
    back := found.value;
  }

  /** A property named "null" is found under a key the map does not have, and goes with it. */
  method FoundUnderNull() returns (found: Option<Val>, b: Bean, left: Bean)
    ensures found.Some? && OtherKey(0) !in b.Model() && Keyword("null") in b.Model() && Keyword("null") !in left.Model()
  {
    var o := new JsObject(map["null" := Prim(1)], ["null"]);
    b := new Bean(o, false, None, None);
    found := b.Lookup(OtherKey(0));
    left := b.Dissoc(OtherKey(0));
  }
}
