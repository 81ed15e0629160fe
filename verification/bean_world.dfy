/** Persistence: over any run of operations on beans, array vectors and their transients, no
    value already handed out ever changes, however deep one looks into it. */
module BeanWorld {
  import opened Beans

  /** What persistent values can reach: objects and arrays with the contents they were handed
      over with, and the beans made so far. */
  datatype Store = Store(objs: map<JsObject, map<string, Val>>, arrs: map<JsArray, seq<Val>>, beans: set<Bean>)

  ghost predicate Rooted(v: Val, st: Store) {
    match v
    case Prim(_) => true
    case Other(_) => true
    case JsObj(o) => o in st.objs
    case JsArr(a) => a in st.arrs
    case ABean(b) => b in st.beans && b.obj in st.objs
    case AVector(w) => w.arr in st.arrs
    case PMap(m) => forall k :: k in m ==> Rooted(m[k], st)
    case PVec(s) => forall i :: 0 <= i < |s| ==> Rooted(s[i], st)
  }

  /** A later store: more of everything, and nothing different. */
  ghost predicate Within(st: Store, st': Store) {
    && (forall o :: o in st.objs ==> o in st'.objs && st'.objs[o] == st.objs[o])
    && (forall a :: a in st.arrs ==> a in st'.arrs && st'.arrs[a] == st.arrs[a])
    && st.beans <= st'.beans
  }

  lemma {:induction false} RootedGrows(v: Val, st: Store, st': Store)
    requires Rooted(v, st) && Within(st, st')
    ensures Rooted(v, st')
  {
    match v
    case PMap(m) =>
      forall k | k in m ensures Rooted(m[k], st') { RootedGrows(m[k], st, st'); }
    case PVec(s) =>
      forall i | 0 <= i < |s| ensures Rooted(s[i], st') { RootedGrows(s[i], st, st'); }
    case _ =>
  }

  lemma AllRootedGrow(st: Store, st': Store)
    requires Within(st, st')
    ensures forall v {:trigger Rooted(v, st')} :: Rooted(v, st) ==> Rooted(v, st')
  {
    forall v | Rooted(v, st) ensures Rooted(v, st') { RootedGrows(v, st, st'); }
  }

  lemma UnwrapRooted(v: Val, st: Store)
    requires Rooted(v, st)
    ensures Rooted(Unwrap(v), st)
  {
  }

  /** What is stored under the roots stays under them. */
  ghost predicate Closed(st: Store) {
    && (forall o, p :: o in st.objs && p in st.objs[o] ==> Rooted(st.objs[o][p], st))
    && (forall a, i :: a in st.arrs && 0 <= i < |st.arrs[a]| ==> Rooted(st.arrs[a][i], st))
  }

  // ---------------------------------------------------------------- what a value looks like

  datatype Layer = LRaw(v: Val) | LMap(entries: map<Key, Obs>, raw: bool) | LSeq(items: seq<Obs>, raw: bool)

  /** A value seen to a given depth. */
  datatype Tree = Cut | TRaw(v: Val) | TMap(entries: map<Key, Tree>, raw: bool) | TSeq(items: seq<Tree>, raw: bool)

  ghost predicate RootedObs(x: Obs, st: Store) {
    match x
    case OBean(o, _) => o in st.objs
    case OVector(a) => a in st.arrs
    case ORaw(v) => Rooted(v, st)
  }

  /** One level: the map or sequence a value shows. */
  ghost function Look(x: Obs, st: Store): Layer
    requires RootedObs(x, st)
  {
    match x
    case OBean(o, recursive) => LMap(Shown(st.objs[o], recursive), false)
    case OVector(a) => LSeq(ShownSeq(st.arrs[a]), false)
    case ORaw(v) =>
      match v
      case JsObj(o) => LMap(Shown(st.objs[o], false), true)
      case JsArr(a) => LSeq(SeenSeq(st.arrs[a]), true)
      case PMap(m) => LMap(ShownMap(m), false)
      case PVec(s) => LSeq(SeenSeq(s), false)
      case _ => LRaw(v)
  }

  ghost predicate LayerRooted(l: Layer, st: Store) {
    && (l.LMap? ==> forall k :: k in l.entries ==> RootedObs(l.entries[k], st))
    && (l.LSeq? ==> forall i :: 0 <= i < |l.items| ==> RootedObs(l.items[i], st))
  }

  lemma StoredRooted(v: Val, recursive: bool, st: Store)
    requires Rooted(v, st)
    ensures RootedObs(SeeStored(v, recursive), st) && RootedObs(See(v), st)
  {
  }

  lemma SeqRooted(s: seq<Val>, st: Store)
    requires forall i :: 0 <= i < |s| ==> Rooted(s[i], st)
    ensures LayerRooted(LSeq(ShownSeq(s), false), st) && LayerRooted(LSeq(SeenSeq(s), true), st)
  {
    forall i | 0 <= i < |s| ensures RootedObs(ShownSeq(s)[i], st) && RootedObs(SeenSeq(s)[i], st) {
      StoredRooted(s[i], true, st);
    }
  }

  lemma LookRooted(x: Obs, st: Store)
    requires RootedObs(x, st) && Closed(st)
    ensures LayerRooted(Look(x, st), st)
  {
    match x
    case OBean(o, recursive) =>
      forall p | p in st.objs[o] ensures RootedObs(SeeStored(st.objs[o][p], recursive), st) {
        StoredRooted(st.objs[o][p], recursive, st);
      }
    case OVector(a) => SeqRooted(st.arrs[a], st);
    case ORaw(v) =>
      match v
      case JsObj(o) =>
        forall p | p in st.objs[o] ensures RootedObs(SeeStored(st.objs[o][p], false), st) {
          StoredRooted(st.objs[o][p], false, st);
        }
      case JsArr(a) => SeqRooted(st.arrs[a], st);
      case PMap(m) =>
        forall k | k in m ensures RootedObs(See(m[k]), st) { StoredRooted(m[k], true, st); }
      case PVec(s) => SeqRooted(s, st);
      case _ =>
  }

  ghost function Deep(x: Obs, n: nat, st: Store): Tree
    requires RootedObs(x, st) && Closed(st)
    decreases n, 0
  {
    if n == 0 then Cut else
      LookRooted(x, st);
      DeepLayer(Look(x, st), n - 1, st)
  }

  ghost function DeepLayer(l: Layer, n: nat, st: Store): Tree
    requires LayerRooted(l, st) && Closed(st)
    decreases n, 1
  {
    match l
    case LRaw(v) => TRaw(v)
    case LMap(entries, raw) => TMap(map k | k in entries :: k := Deep(entries[k], n, st), raw)
    case LSeq(items, raw) => TSeq(seq(|items|, i requires 0 <= i < |items| => Deep(items[i], n, st)), raw)
  }

  lemma RootedObsGrows(x: Obs, st: Store, st': Store)
    requires RootedObs(x, st) && Within(st, st')
    ensures RootedObs(x, st') && Look(x, st') == Look(x, st)
  {
    if x.ORaw? {
      RootedGrows(x.v, st, st');
    }
  }

  /** A value looks the same in every later store, to every depth. */
  lemma {:induction false} DeepGrows(x: Obs, n: nat, st: Store, st': Store)
    requires RootedObs(x, st) && Closed(st) && Within(st, st') && Closed(st')
    ensures RootedObs(x, st') && Deep(x, n, st') == Deep(x, n, st)
    decreases n, 0
  {
    RootedObsGrows(x, st, st');
    if n > 0 {
      LookRooted(x, st);
      LookRooted(x, st');
      DeepLayerGrows(Look(x, st), n - 1, st, st');
    }
  }

  lemma {:induction false} DeepLayerGrows(l: Layer, n: nat, st: Store, st': Store)
    requires LayerRooted(l, st) && LayerRooted(l, st') && Closed(st) && Within(st, st') && Closed(st')
    ensures DeepLayer(l, n, st') == DeepLayer(l, n, st)
    decreases n, 1
  {
    match l
    case LRaw(_) =>
    case LMap(entries, _) =>
      forall k | k in entries ensures Deep(entries[k], n, st') == Deep(entries[k], n, st) {
        DeepGrows(entries[k], n, st, st');
      }
    case LSeq(items, _) =>
      forall i | 0 <= i < |items| ensures Deep(items[i], n, st') == Deep(items[i], n, st) {
        DeepGrows(items[i], n, st, st');
      }
      assert DeepLayer(l, n, st').items == DeepLayer(l, n, st).items;
  }

  // ---------------------------------------------------------------- growing the store

  ghost function WithObj(st: Store, o: JsObject, props: map<string, Val>): Store {
    st.(objs := st.objs[o := props])
  }

  ghost function WithArr(st: Store, a: JsArray, items: seq<Val>): Store {
    st.(arrs := st.arrs[a := items])
  }

  ghost function WithBeans(st: Store, beans: set<Bean>): Store {
    st.(beans := st.beans + beans)
  }

  lemma WithObjCloses(st: Store, o: JsObject, props: map<string, Val>)
    requires Closed(st) && o !in st.objs && forall p :: p in props ==> Rooted(props[p], st)
    ensures Within(st, WithObj(st, o, props)) && Closed(WithObj(st, o, props))
  {
    AllRootedGrow(st, WithObj(st, o, props));
  }

  lemma WithArrCloses(st: Store, a: JsArray, items: seq<Val>)
    requires Closed(st) && a !in st.arrs && forall i :: 0 <= i < |items| ==> Rooted(items[i], st)
    ensures Within(st, WithArr(st, a, items)) && Closed(WithArr(st, a, items))
  {
    AllRootedGrow(st, WithArr(st, a, items));
  }

  lemma WithBeansCloses(st: Store, beans: set<Bean>)
    requires Closed(st)
    ensures Within(st, WithBeans(st, beans)) && Closed(WithBeans(st, beans))
  {
    AllRootedGrow(st, WithBeans(st, beans));
  }

  /** The heap holds what the store says, and every bean's caches are right. */
  ghost predicate Mirrors(st: Store)
    reads st.objs.Keys, st.arrs.Keys, st.beans, set b | b in st.beans :: b.obj
  {
    && (forall o :: o in st.objs ==> o.Valid() && o.props == st.objs[o])
    && (forall a :: a in st.arrs ==> a.items == st.arrs[a])
    && (forall b :: b in st.beans ==> b.obj in st.objs && b.Valid())
  }

  /** Rooted, once its bean (when it is a new one) is taken in. */
  twostate predicate Fits(new w: Val, st: Store)
    reads *
  {
    if w.ABean? then w.b.obj in st.objs && (w.b in st.beans || (fresh(w.b) && w.b.Valid())) else Rooted(w, st)
  }

  twostate lemma WrappedFits(new w: Val, new v: Val, st: Store)
    requires Wraps(w, v) && Rooted(v, st) && Mirrors(st)
    ensures Fits(w, st)
  {
  }

  /** The beans among some values that the store does not know yet. */
  twostate lemma FitsRooted(new vs: set<Val>, st: Store) returns (beans: set<Bean>)
    requires forall v :: v in vs ==> Fits(v, st)
    ensures forall v :: v in vs ==> Rooted(v, WithBeans(st, beans))
    ensures fresh(beans)
    ensures forall b :: b in beans ==> b.obj in st.objs && b.Valid()
  {
    beans := (set v | v in vs && v.ABean? :: v.b) - st.beans;
    forall v | v in vs ensures Rooted(v, WithBeans(st, beans)) {
      if !v.ABean? {
        RootedGrows(v, st, WithBeans(st, beans));
      }
    }
  }

  twostate lemma MapFits(new m: map<Key, Val>, new k: Key, new v: Val, new props: map<string, Val>, st: Store)
    returns (beans: set<Bean>)
    requires Mirrors(st)
    requires Rooted(v, st)
    requires forall p :: p in props ==> Rooted(props[p], st)
    requires forall j :: j in m ==>
      (j == k && m[j] == v) || (j.Keyword? && j.name in props && Wraps(m[j], props[j.name]))
    ensures Rooted(PMap(m), WithBeans(st, beans))
    ensures fresh(beans)
    ensures forall b :: b in beans ==> b.obj in st.objs && b.Valid()
  {
    forall j | j in m ensures Fits(m[j], st) {
      if !(j == k && m[j] == v) {
        WrappedFits(m[j], props[j.name], st);
      }
    }
    beans := FitsRooted(m.Values, st);
  }

  twostate lemma SeqFits(new s: seq<Val>, new v: Val, new items: seq<Val>, st: Store) returns (beans: set<Bean>)
    requires Mirrors(st)
    requires Rooted(v, st)
    requires forall i :: 0 <= i < |items| ==> Rooted(items[i], st)
    requires forall i :: 0 <= i < |s| ==> s[i] == v || (i < |items| && Wraps(s[i], items[i]))
    ensures Rooted(PVec(s), WithBeans(st, beans))
    ensures fresh(beans)
    ensures forall b :: b in beans ==> b.obj in st.objs && b.Valid()
  {
    forall i | 0 <= i < |s| ensures Fits(s[i], st) {
      if s[i] != v {
        WrappedFits(s[i], items[i], st);
      }
    }
    var vs := set i | 0 <= i < |s| :: s[i];
    assert forall i :: 0 <= i < |s| ==> s[i] in vs;
    beans := FitsRooted(vs, st);
  }

  // ---------------------------------------------------------------- what each operation gives

  /** One operation of the user's program; the numbers pick values and transients handed out
      before, and an operation that picks nothing of its kind does nothing. */
  datatype Op =
    | MakePrim(n: int)
    | MakeObject(entries: map<string, nat>)
    | MakeArray(picks: seq<nat>)
    | ToClj(i: nat, recursive: bool)
    | OnBean(i: nat, bean: BeanOp)
    | OnVector(i: nat, vector: VectorOp)
    | OnTransientBean(i: nat, bean: BeanOp)
    | OnTransientVector(i: nat, vector: VectorOp)

  datatype BeanOp = Assoc(k: Key, j: nat) | Dissoc(k: Key) | Lookup(k: Key) | Count | Keys | Switch

  datatype VectorOp = Conj(j: nat) | AssocN(n: int, j: nat) | Pop | Nth(n: int) | Switch

  /** What a transient shows. */
  datatype TBean = TBean(model: map<Key, Obs>, recursive: bool, editable: bool)
  datatype TVec = TVec(model: seq<Obs>, editable: bool)

  /** All that was handed out, in what it shows. */
  datatype Snap = Snap(values: seq<Val>, st: Store, tb: seq<TBean>, tv: seq<TVec>)

  ghost function MapIn(v: Val, st: Store): map<Key, Obs> {
    match v
    case ABean(b) => if b.obj in st.objs then Shown(st.objs[b.obj], b.recursive) else map[]
    case PMap(m) => ShownMap(m)
    case _ => map[]
  }

  ghost function SeqIn(v: Val, st: Store): seq<Obs> {
    match v
    case AVector(w) => if w.arr in st.arrs then ShownSeq(st.arrs[w.arr]) else []
    case PVec(s) => SeenSeq(s)
    case _ => []
  }

  ghost predicate Idle(a: Snap, b: Snap) {
    b.values == a.values && b.tb == a.tb && b.tv == a.tv
  }

  /** One value more. */
  ghost predicate Gives(a: Snap, b: Snap) {
    |b.values| == |a.values| + 1 && a.values <= b.values && b.tb == a.tb && b.tv == a.tv
  }

  ghost predicate GivesMap(a: Snap, b: Snap, m: map<Key, Obs>) {
    Gives(a, b) && MapIn(b.values[|a.values|], b.st) == m
  }

  ghost predicate GivesSeq(a: Snap, b: Snap, s: seq<Obs>) {
    Gives(a, b) && SeqIn(b.values[|a.values|], b.st) == s
  }

  ghost predicate GivesSeen(a: Snap, b: Snap, x: Obs) {
    Gives(a, b) && See(b.values[|a.values|]) == x
  }

  function StoredAs(k: Key, v: Val, recursive: bool): Obs {
    if IsSnapshot(k, v, recursive) then See(v) else Added(v, recursive)
  }

  function PushedAs(v: Val): Obs {
    if CompatibleValue(v, true) then Added(v, true) else See(v)
  }

  /** A pushed value is read as itself, except that a bean that was not recursive comes back
      recursive. */
  lemma PushedShows(v: Val)
    ensures PushedAs(v) == See(v) <==> !(v.ABean? && !v.b.recursive)
  {
    AddedShows(Keyword(""), v, true);
  }

  /** At the length it appends. */
  function Put(s: seq<Obs>, n: int, x: Obs): seq<Obs>
    requires 0 <= n <= |s|
  {
    if n < |s| then s[n := x] else s + [x]
  }

  ghost predicate BeanGives(a: Snap, i: nat, op: BeanOp, b: Snap)
    requires i < |a.values| && a.values[i].ABean?
  {
    var m, recursive := MapIn(a.values[i], a.st), a.values[i].b.recursive;
    match op
    case Assoc(k, j) =>
      if j < |a.values| then GivesMap(a, b, m[k := StoredAs(k, a.values[j], recursive)]) else Idle(a, b)
    case Dissoc(k) => GivesMap(a, b, m - {Keyword(KeyToProp(k))})
    case Lookup(k) =>
      var read := Keyword(KeyToProp(k));
      if read in m then GivesSeen(a, b, m[read]) else Idle(a, b)
    case Count => Idle(a, b)
    case Keys => Idle(a, b)
    case Switch => b.values == a.values && b.tv == a.tv && b.tb == a.tb + [TBean(m, recursive, true)]
  }

  ghost predicate VectorGives(a: Snap, i: nat, op: VectorOp, b: Snap)
    requires i < |a.values| && a.values[i].AVector?
  {
    var s := SeqIn(a.values[i], a.st);
    match op
    case Conj(j) => if j < |a.values| then GivesSeq(a, b, s + [PushedAs(a.values[j])]) else Idle(a, b)
    case AssocN(n, j) =>
      if j < |a.values| && 0 <= n <= |s| then GivesSeq(a, b, Put(s, n, PushedAs(a.values[j]))) else Idle(a, b)
    case Pop => if s != [] then GivesSeq(a, b, s[..|s| - 1]) else Idle(a, b)
    case Nth(n) => if 0 <= n < |s| then GivesSeen(a, b, s[n]) else Idle(a, b)
    case Switch => b.values == a.values && b.tb == a.tb && b.tv == a.tv + [TVec(s, true)]
  }

  /** One transient bean changed, and nothing else. */
  ghost predicate BeanBecomes(a: Snap, i: nat, t: TBean, b: Snap)
    requires i < |a.tb|
  {
    b.values == a.values && b.tb == a.tb[i := t] && b.tv == a.tv
  }

  ghost predicate VecBecomes(a: Snap, i: nat, t: TVec, b: Snap)
    requires i < |a.tv|
  {
    b.values == a.values && b.tb == a.tb && b.tv == a.tv[i := t]
  }

  ghost predicate TBeanGives(a: Snap, i: nat, op: BeanOp, b: Snap)
    requires i < |a.tb|
  {
    var t := a.tb[i];
    if !t.editable then Idle(a, b) else
      match op
      case Assoc(k, j) =>
        if j >= |a.values| then Idle(a, b)
        else if IsSnapshot(k, a.values[j], t.recursive) then GivesMap(a, b, t.model[k := See(a.values[j])])
        else BeanBecomes(a, i, t.(model := t.model[k := Added(a.values[j], t.recursive)]), b)
      case Dissoc(k) => BeanBecomes(a, i, t.(model := t.model - {Keyword(KeyToProp(k))}), b)
      case Lookup(k) =>
        var read := Keyword(KeyToProp(k));
        if read in t.model then GivesSeen(a, b, t.model[read]) else Idle(a, b)
      case Count => Idle(a, b)
      case Keys => Idle(a, b)
      case Switch => GivesMap(a.(tb := a.tb[i := t.(editable := false)]), b, t.model)
  }

  ghost predicate TVecGives(a: Snap, i: nat, op: VectorOp, b: Snap)
    requires i < |a.tv|
  {
    var t := a.tv[i];
    if !t.editable then Idle(a, b) else
      match op
      case Conj(j) =>
        if j >= |a.values| then Idle(a, b)
        else if !CompatibleValue(a.values[j], true) then GivesSeq(a, b, t.model + [See(a.values[j])])
        else VecBecomes(a, i, t.(model := t.model + [Added(a.values[j], true)]), b)
      case AssocN(n, j) =>
        if j >= |a.values| || n < 0 || n > |t.model| then Idle(a, b)
        else if !CompatibleValue(a.values[j], true) then GivesSeq(a, b, Put(t.model, n, See(a.values[j])))
        else VecBecomes(a, i, t.(model := Put(t.model, n, Added(a.values[j], true))), b)
      case Pop => if t.model != [] then VecBecomes(a, i, t.(model := t.model[..|t.model| - 1]), b) else Idle(a, b)
      case Nth(_) => Idle(a, b)
      case Switch => GivesSeq(a.(tv := a.tv[i := t.(editable := false)]), b, t.model)
  }

  ghost predicate WrapGives(a: Snap, i: nat, recursive: bool, b: Snap)
    requires i < |a.values|
  {
    match a.values[i]
    case JsObj(o) => GivesSeen(a, b, OBean(o, recursive))
    case JsArr(r) => GivesSeen(a, b, OVector(r))
    case _ => Idle(a, b)
  }

  ghost predicate ObjectGives(a: Snap, entries: map<string, nat>, b: Snap) {
    if exists p :: p in entries && entries[p] >= |a.values| then Idle(a, b) else
      Gives(a, b) && b.values[|a.values|].JsObj? && b.values[|a.values|].o !in a.st.objs
      && b.values[|a.values|].o in b.st.objs
      && b.st.objs[b.values[|a.values|].o] == map p | p in entries :: a.values[entries[p]]
  }

  ghost predicate ArrayGives(a: Snap, picks: seq<nat>, b: Snap) {
    if exists i :: 0 <= i < |picks| && picks[i] >= |a.values| then Idle(a, b) else
      Gives(a, b) && b.values[|a.values|].JsArr? && b.values[|a.values|].a !in a.st.arrs
      && b.values[|a.values|].a in b.st.arrs
      && b.st.arrs[b.values[|a.values|].a] == seq(|picks|, i requires 0 <= i < |picks| => a.values[picks[i]])
  }

  ghost predicate StepGives(a: Snap, op: Op, b: Snap) {
    match op
    case MakePrim(n) => Gives(a, b) && b.values[|a.values|] == Prim(n)
    case MakeObject(entries) => ObjectGives(a, entries, b)
    case MakeArray(picks) => ArrayGives(a, picks, b)
    case ToClj(i, recursive) => if i < |a.values| then WrapGives(a, i, recursive, b) else Idle(a, b)
    case OnBean(i, x) => if i < |a.values| && a.values[i].ABean? then BeanGives(a, i, x, b) else Idle(a, b)
    case OnVector(i, x) => if i < |a.values| && a.values[i].AVector? then VectorGives(a, i, x, b) else Idle(a, b)
    case OnTransientBean(i, x) => if i < |a.tb| then TBeanGives(a, i, x, b) else Idle(a, b)
    case OnTransientVector(i, x) => if i < |a.tv| then TVecGives(a, i, x, b) else Idle(a, b)
  }

  // ---------------------------------------------------------------- the world

  class World {
    ghost var st: Store
    ghost var Repr: set<object>
    ghost var tb: seq<TBean>                // what the transients show
    ghost var tv: seq<TVec>
    var values: seq<Val>                    // every persistent value handed out so far
    var tbeans: seq<TransientBean>
    var tvecs: seq<TransientArrayVector>

    /** A transient's object is its own while it is editable. */
    ghost predicate BeanOwned(t: TransientBean)
      reads this, t, t.obj
    {
      && t.Valid()
      && (t.editable ==> t.obj !in st.objs)
      && forall p :: p in t.obj.props ==> Rooted(t.obj.props[p], st)
    }

    ghost predicate VecOwned(t: TransientArrayVector)
      reads this, t, t.arr
    {
      && (t.editable ==> t.arr !in st.arrs)
      && forall i :: 0 <= i < |t.arr.items| ==> Rooted(t.arr.items[i], st)
    }

    static ghost function ShowsBean(t: TransientBean): TBean
      reads t, t.obj
    {
      TBean(t.Model(), t.recursive, t.editable)
    }

    static ghost function ShowsVec(t: TransientArrayVector): TVec
      reads t, t.arr
    {
      TVec(t.Model(), t.editable)
    }

    ghost function Now(): Snap
      reads this
    {
      Snap(values, st, tb, tv)
    }

    ghost predicate BeansOwn()
      reads this, Repr
    {
      && |tb| == |tbeans|
      && (forall i :: 0 <= i < |tbeans| ==>
            tbeans[i] in Repr && tbeans[i].obj in Repr && BeanOwned(tbeans[i]) && tb[i] == ShowsBean(tbeans[i]))
      && (forall i, j :: 0 <= i < j < |tbeans| ==> tbeans[i].obj != tbeans[j].obj)
    }

    ghost predicate VecsOwn()
      reads this, Repr
    {
      && |tv| == |tvecs|
      && (forall i :: 0 <= i < |tvecs| ==>
            tvecs[i] in Repr && tvecs[i].arr in Repr && VecOwned(tvecs[i]) && tv[i] == ShowsVec(tvecs[i]))
      && (forall i, j :: 0 <= i < j < |tvecs| ==> tvecs[i].arr != tvecs[j].arr)
    }

    ghost predicate Owns()
      reads this
    {
      && this in Repr
      && (forall o :: o in st.objs ==> o in Repr)
      && (forall a :: a in st.arrs ==> a in Repr)
      && (forall b :: b in st.beans ==> b in Repr && b.obj in Repr)
    }

    ghost predicate Inv()
      reads this, Repr
    {
      && Owns() && Closed(st) && Mirrors(st)
      && (forall i :: 0 <= i < |values| ==> Rooted(values[i], st))
      && BeansOwn() && VecsOwn()
    }

    twostate predicate Grown()
      reads this, Repr
    {
      && Inv() && Within(old(st), st) && old(values) <= values && fresh(Repr - old(Repr))
    }

    constructor ()
      ensures Inv() && values == [] && tbeans == [] && tvecs == []
    {
      st := Store(map[], map[], {});
      values, tbeans, tvecs, tb, tv, Repr := [], [], [], [], [], {this};
    }

    // ---------------------------------------------------------------- what the invariant gives

    lemma ValueFacts(i: nat)
      requires Inv() && i < |values|
      ensures Rooted(values[i], st) && Rooted(Unwrap(values[i]), st)
    {
      UnwrapRooted(values[i], st);
    }

    lemma BeanFacts(i: nat)
      requires Inv() && i < |values| && values[i].ABean?
      ensures Mirrors(st) && values[i].b in Repr && values[i].b in st.beans && values[i].b.obj in st.objs
      ensures values[i].b.Valid() && values[i].b.Model() == MapIn(values[i], st)
      ensures forall p :: p in values[i].b.obj.props ==> Rooted(values[i].b.obj.props[p], st)
    {
      assert Rooted(values[i], st);
    }

    lemma VectorFacts(i: nat)
      requires Inv() && i < |values| && values[i].AVector?
      ensures Mirrors(st) && values[i].v.arr in st.arrs && values[i].v.Model() == SeqIn(values[i], st)
      ensures forall n :: 0 <= n < |values[i].v.arr.items| ==> Rooted(values[i].v.arr.items[n], st)
    {
      assert Rooted(values[i], st);
    }

    lemma TBeanFacts(i: nat)
      requires Inv() && i < |tbeans|
      ensures Mirrors(st) && |tb| == |tbeans| && tb[i] == ShowsBean(tbeans[i])
      ensures this in Repr && tbeans[i] in Repr && tbeans[i].obj in Repr && tbeans[i].Valid()
      ensures forall p :: p in tbeans[i].obj.props ==> Rooted(tbeans[i].obj.props[p], st)
    {
    }

    lemma TVecFacts(i: nat)
      requires Inv() && i < |tvecs|
      ensures Mirrors(st) && |tv| == |tvecs| && tv[i] == ShowsVec(tvecs[i])
      ensures this in Repr && tvecs[i] in Repr && tvecs[i].arr in Repr
      ensures forall n :: 0 <= n < |tvecs[i].arr.items| ==> Rooted(tvecs[i].arr.items[n], st)
    {
    }

    // ---------------------------------------------------------------- handing out

    /** Enter a value under a larger store. */
    method HandOut(v: Val, ghost st': Store, ghost more: set<object>)
      requires Inv() && Within(st, st') && Closed(st') && Mirrors(st') && Rooted(v, st')
      requires forall o :: o in st'.objs ==> o in Repr + more
      requires forall a :: a in st'.arrs ==> a in Repr + more
      requires forall b :: b in st'.beans ==> b in Repr + more
      requires forall i :: 0 <= i < |tbeans| && tbeans[i].editable ==> tbeans[i].obj !in st'.objs
      requires forall i :: 0 <= i < |tvecs| && tvecs[i].editable ==> tvecs[i].arr !in st'.arrs
      modifies this`st, this`values, this`Repr
      ensures Inv() && st == st' && values == old(values) + [v] && Repr == old(Repr) + more
    {
      hide Shown, ShownSeq;
      AllRootedGrow(st, st');
      st := st';
      Repr := Repr + more;
      values := values + [v];
    }

    /** A bean over an object no one else holds. */
    method HandOutBean(b: Bean)
      requires Inv() && b.Valid()
      requires b.obj !in st.objs && forall p :: p in b.obj.props ==> Rooted(b.obj.props[p], st)
      requires forall i :: 0 <= i < |tbeans| && tbeans[i].editable ==> tbeans[i].obj != b.obj
      modifies this`st, this`values, this`Repr
      ensures Inv() && Within(old(st), st) && values == old(values) + [ABean(b)]
      ensures GivesMap(old(Now()), Now(), b.Model())
      ensures var more: set<object> := {b, b.obj}; Repr == old(Repr) + more
    {
      hide Shown, BeansOwn, VecsOwn;
      ghost var st1 := WithObj(st, b.obj, b.obj.props);
      WithObjCloses(st, b.obj, b.obj.props);
      WithBeansCloses(st1, {b});
      OwnedApart();
      HandOut(ABean(b), WithBeans(st1, {b}), {b, b.obj});
    }

    /** What an editable transient holds, no value reaches. */
    lemma OwnedApart()
      requires Inv()
      ensures forall i :: 0 <= i < |tbeans| && tbeans[i].editable ==> tbeans[i].obj !in st.objs
      ensures forall i :: 0 <= i < |tvecs| && tvecs[i].editable ==> tvecs[i].arr !in st.arrs
    {
    }

    lemma NewApart(x: object)
      requires Inv() && x !in Repr
      ensures forall i :: 0 <= i < |tbeans| ==> tbeans[i].obj != x
      ensures forall i :: 0 <= i < |tvecs| ==> tvecs[i].arr != x
      ensures forall o :: o in st.objs ==> o != x
      ensures forall a :: a in st.arrs ==> a != x
    {
    }

    method HandOutNewBean(b: Bean)
      requires Inv() && b.Valid() && b.obj !in Repr
      requires forall p :: p in b.obj.props ==> Rooted(b.obj.props[p], st)
      modifies this`st, this`values, this`Repr
      ensures Inv() && Within(old(st), st) && values == old(values) + [ABean(b)]
      ensures GivesMap(old(Now()), Now(), b.Model())
      ensures var more: set<object> := {b, b.obj}; Repr == old(Repr) + more
    {
      hide Inv;
      NewApart(b.obj);
      HandOutBean(b);
    }

    method HandOutVector(w: ArrayVector)
      requires Inv()
      requires w.arr !in st.arrs && forall i :: 0 <= i < |w.arr.items| ==> Rooted(w.arr.items[i], st)
      requires forall i :: 0 <= i < |tvecs| && tvecs[i].editable ==> tvecs[i].arr != w.arr
      modifies this`st, this`values, this`Repr
      ensures Inv() && Within(old(st), st) && values == old(values) + [AVector(w)]
      ensures GivesSeq(old(Now()), Now(), w.Model())
      ensures Repr == old(Repr) + {w.arr}
    {
      hide ShownSeq, BeansOwn, VecsOwn;
      WithArrCloses(st, w.arr, w.arr.items);
      OwnedApart();
      HandOut(AVector(w), WithArr(st, w.arr, w.arr.items), {w.arr});
    }

    method HandOutNewVector(w: ArrayVector)
      requires Inv() && w.arr !in Repr && forall i :: 0 <= i < |w.arr.items| ==> Rooted(w.arr.items[i], st)
      modifies this`st, this`values, this`Repr
      ensures Inv() && Within(old(st), st) && values == old(values) + [AVector(w)]
      ensures GivesSeq(old(Now()), Now(), w.Model())
      ensures Repr == old(Repr) + {w.arr}
    {
      hide Inv;
      NewApart(w.arr);
      HandOutVector(w);
    }

    /** A value that brings new beans over known objects with it. */
    method HandOutWith(v: Val, ghost beans: set<Bean>)
      requires Inv() && Rooted(v, WithBeans(st, beans))
      requires forall b :: b in beans ==> b.obj in st.objs && b.Valid()
      modifies this`st, this`values, this`Repr
      ensures Inv() && Within(old(st), st) && values == old(values) + [v]
      ensures Gives(old(Now()), Now())
      ensures Repr == old(Repr) + beans
    {
      hide BeansOwn, VecsOwn;
      WithBeansCloses(st, beans);
      OwnedApart();
      HandOut(v, WithBeans(st, beans), beans);
    }

    /** Take in a transient over an object (or array) of its own. */
    method TakeBeanTransient(t: TransientBean)
      requires Inv() && t.Valid() && t.editable && t.obj !in Repr
      requires forall p :: p in t.obj.props ==> Rooted(t.obj.props[p], st)
      modifies this`tbeans, this`tb, this`Repr
      ensures Inv() && tbeans == old(tbeans) + [t] && tb == old(tb) + [ShowsBean(t)]
      ensures var more: set<object> := {t, t.obj}; Repr == old(Repr) + more
    {
      hide ShowsBean, ShowsVec;
      NewApart(t.obj);
      tbeans, tb := tbeans + [t], tb + [ShowsBean(t)];
      Repr := Repr + {t, t.obj};
      assert BeansOwn();
      assert VecsOwn();
    }

    method TakeVecTransient(t: TransientArrayVector)
      requires Inv() && t.editable && t.arr !in Repr
      requires forall i :: 0 <= i < |t.arr.items| ==> Rooted(t.arr.items[i], st)
      modifies this`tvecs, this`tv, this`Repr
      ensures Inv() && tvecs == old(tvecs) + [t] && tv == old(tv) + [ShowsVec(t)]
      ensures var more: set<object> := {t, t.arr}; Repr == old(Repr) + more
    {
      hide ShowsBean, ShowsVec;
      NewApart(t.arr);
      tvecs, tv := tvecs + [t], tv + [ShowsVec(t)];
      Repr := Repr + {t, t.arr};
      assert BeansOwn();
      assert VecsOwn();
    }

    /** Writing to an editable transient, and to nothing else, keeps the invariant. */
    twostate lemma ObjWritten(i: nat)
      requires old(Inv()) && i < |old(tbeans)| && old(tbeans[i].editable)
      requires unchanged(this`st, this`values, this`tbeans, this`tvecs, this`Repr, this`tv)
      requires unchanged(Repr - {this, tbeans[i], tbeans[i].obj})
      requires tb == old(tb)[i := ShowsBean(tbeans[i])]
      requires tbeans[i].Valid() && tbeans[i].editable
      requires forall p :: p in tbeans[i].obj.props ==> Rooted(tbeans[i].obj.props[p], st)
      ensures Inv()
    {
      ObjKeepsBeans(i);
      ObjKeepsVecs(i);
      ObjKeepsStore(i);
    }

    twostate lemma ObjKeepsBeans(i: nat)
      requires old(Inv()) && i < |old(tbeans)| && old(tbeans[i].editable)
      requires unchanged(this`st, this`tbeans, this`Repr)
      requires unchanged(Repr - {this, tbeans[i], tbeans[i].obj})
      requires tb == old(tb)[i := ShowsBean(tbeans[i])]
      requires tbeans[i].Valid() && tbeans[i].editable
      requires forall p :: p in tbeans[i].obj.props ==> Rooted(tbeans[i].obj.props[p], st)
      ensures BeansOwn()
    {
      hide Shown;
      forall j | 0 <= j < |tbeans| ensures BeanOwned(tbeans[j]) && tb[j] == ShowsBean(tbeans[j]) {
        if j != i {
          assert old(BeanOwned(tbeans[j]) && tb[j] == ShowsBean(tbeans[j]));
          assert tbeans[j] != tbeans[i] && tbeans[j].obj != tbeans[i].obj;
          assert unchanged(tbeans[j]) && unchanged(tbeans[j].obj);
        }
      }
    }

    twostate lemma ObjKeepsVecs(i: nat)
      requires old(Inv()) && i < |old(tbeans)|
      requires unchanged(this`st, this`tbeans, this`tvecs, this`Repr, this`tv)
      requires unchanged(Repr - {this, tbeans[i], tbeans[i].obj})
      ensures VecsOwn()
    {
      hide ShownSeq, BeansOwn;
      forall j | 0 <= j < |tvecs| ensures VecOwned(tvecs[j]) && tv[j] == ShowsVec(tvecs[j]) {
        assert old(VecOwned(tvecs[j]) && tv[j] == ShowsVec(tvecs[j]));
        assert unchanged(tvecs[j]) && unchanged(tvecs[j].arr);
      }
    }

    twostate lemma ObjKeepsStore(i: nat)
      requires old(Inv()) && i < |old(tbeans)| && old(tbeans[i].editable)
      requires unchanged(this`st, this`tbeans, this`Repr)
      requires unchanged(Repr - {this, tbeans[i], tbeans[i].obj})
      ensures Mirrors(st)
    {
      hide Shown;
      assert tbeans[i].obj !in st.objs;
      forall o | o in st.objs ensures o.Valid() && o.props == st.objs[o] {
        assert unchanged(o);
      }
      forall a | a in st.arrs ensures a.items == st.arrs[a] {
        assert unchanged(a);
      }
      forall b | b in st.beans ensures b.Valid() {
        assert unchanged(b) && unchanged(b.obj);
      }
    }

    twostate lemma ArrWritten(i: nat)
      requires old(Inv()) && i < |old(tvecs)| && old(tvecs[i].editable)
      requires unchanged(this`st, this`values, this`tbeans, this`tvecs, this`Repr, this`tb)
      requires unchanged(Repr - {this, tvecs[i], old(tvecs[i].arr)})
      requires tvecs[i].arr == old(tvecs[i].arr)
      requires tv == old(tv)[i := ShowsVec(tvecs[i])]
      requires tvecs[i].editable && forall n :: 0 <= n < |tvecs[i].arr.items| ==> Rooted(tvecs[i].arr.items[n], st)
      ensures Inv()
    {
      ArrKeepsVecs(i);
      ArrKeepsBeans(i);
      ArrKeepsStore(i);
    }

    twostate lemma ArrKeepsVecs(i: nat)
      requires old(Inv()) && i < |old(tvecs)| && old(tvecs[i].editable)
      requires unchanged(this`st, this`tvecs, this`Repr)
      requires unchanged(Repr - {this, tvecs[i], old(tvecs[i].arr)})
      requires tvecs[i].arr == old(tvecs[i].arr)
      requires tv == old(tv)[i := ShowsVec(tvecs[i])]
      requires tvecs[i].editable && forall n :: 0 <= n < |tvecs[i].arr.items| ==> Rooted(tvecs[i].arr.items[n], st)
      ensures VecsOwn()
    {
      hide ShownSeq, BeansOwn;
      forall j | 0 <= j < |tvecs|
        ensures VecOwned(tvecs[j]) && tv[j] == ShowsVec(tvecs[j]) && tvecs[j].arr == old(tvecs[j].arr)
      {
        if j != i {
          assert old(VecOwned(tvecs[j]) && tv[j] == ShowsVec(tvecs[j]));
          assert old(tvecs[j].arr) != old(tvecs[i].arr);
          assert unchanged(tvecs[j]) && unchanged(tvecs[j].arr);
        }
      }
    }

    twostate lemma ArrKeepsBeans(i: nat)
      requires old(Inv()) && i < |old(tvecs)|
      requires unchanged(this`st, this`tbeans, this`tvecs, this`Repr, this`tb)
      requires unchanged(Repr - {this, tvecs[i], old(tvecs[i].arr)})
      ensures BeansOwn()
    {
      hide Shown, VecsOwn;
      forall j | 0 <= j < |tbeans| ensures BeanOwned(tbeans[j]) && tb[j] == ShowsBean(tbeans[j]) {
        assert old(BeanOwned(tbeans[j]) && tb[j] == ShowsBean(tbeans[j]));
        assert unchanged(tbeans[j]) && unchanged(tbeans[j].obj);
      }
    }

    twostate lemma ArrKeepsStore(i: nat)
      requires old(Inv()) && i < |old(tvecs)| && old(tvecs[i].editable)
      requires unchanged(this`st, this`tvecs, this`Repr)
      requires unchanged(Repr - {this, tvecs[i], old(tvecs[i].arr)})
      ensures Mirrors(st)
    {
      hide Shown;
      assert old(tvecs[i].arr) !in st.arrs;
      forall o | o in st.objs ensures o.Valid() && o.props == st.objs[o] {
        assert unchanged(o);
      }
      forall a | a in st.arrs ensures a.items == st.arrs[a] {
        assert unchanged(a);
      }
      forall b | b in st.beans ensures b.Valid() {
        assert unchanged(b) && unchanged(b.obj);
      }
    }

    // ---------------------------------------------------------------- host values

    method MakePrim(n: int)
      requires Inv()
      modifies this
      ensures Grown() && StepGives(old(Now()), Op.MakePrim(n), Now())
    {
      hide BeansOwn, VecsOwn;
      OwnedApart();
      HandOut(Prim(n), st, {});
    }

    /** `#js {...}` over values handed out before. */
    method MakeObject(entries: map<string, nat>)
      requires Inv() && forall p :: p in entries ==> entries[p] < |values|
      modifies this
      ensures Grown() && ObjectGives(old(Now()), entries, Now())
    {
      hide BeansOwn, VecsOwn;
      var order := Listing(entries.Keys);
      var props := map p | p in entries :: values[entries[p]];
      var o := new JsObject(props, order);
      WithObjCloses(st, o, props);
      OwnedApart();
      NewApart(o);
      HandOut(JsObj(o), WithObj(st, o, props), {o});
    }

    method MakeArray(picks: seq<nat>)
      requires Inv() && forall i :: 0 <= i < |picks| ==> picks[i] < |values|
      modifies this
      ensures Grown() && ArrayGives(old(Now()), picks, Now())
    {
      hide BeansOwn, VecsOwn;
      var known := values;
      var items := seq(|picks|, i requires 0 <= i < |picks| && picks[i] < |known| => known[picks[i]]);
      var a := new JsArray(items);
      WithArrCloses(st, a, items);
      OwnedApart();
      NewApart(a);
      HandOut(JsArr(a), WithArr(st, a, items), {a});
    }

    /** `bean` and `->clj`: a bean or vector over the object or array itself. */
    method ToClj(i: nat, recursive: bool)
      requires Inv() && i < |values|
      modifies this
      ensures Grown() && WrapGives(old(Now()), i, recursive, Now())
    {
      hide Inv;
      ValueFacts(i);
      match values[i] {
        case JsObj(o) => WrapObject(o, recursive);
        case JsArr(a) => WrapArray(a);
        case _ =>
      }
    }

    method WrapObject(o: JsObject, recursive: bool)
      requires Inv() && o in st.objs
      modifies this
      ensures Grown() && GivesSeen(old(Now()), Now(), OBean(o, recursive))
    {
      hide BeansOwn, VecsOwn;
      var b := new Bean(o, recursive, None, None);
      HandOutWith(ABean(b), {b});
    }

    method WrapArray(a: JsArray)
      requires Inv() && a in st.arrs
      modifies this
      ensures Grown() && GivesSeen(old(Now()), Now(), OVector(a))
    {
      hide BeansOwn, VecsOwn;
      var w := new ArrayVector(a);
      HandOutWith(AVector(w), {});
    }

    // ---------------------------------------------------------------- beans

    method Assoc(i: nat, k: Key, j: nat)
      requires Inv() && i < |values| && j < |values| && values[i].ABean?
      modifies this
      ensures Grown() && BeanGives(old(Now()), i, BeanOp.Assoc(k, j), Now())
    {
      hide Inv, BeanGives, IsSnapshot;
      if IsSnapshot(k, values[j], values[i].b.recursive) {
        AssocToSnapshot(i, k, j);
      } else {
        AssocToCopy(i, k, j);
      }
    }

    method AssocToCopy(i: nat, k: Key, j: nat)
      requires Inv() && i < |values| && j < |values| && values[i].ABean?
      requires !IsSnapshot(k, values[j], values[i].b.recursive)
      modifies this
      ensures Grown() && BeanGives(old(Now()), i, BeanOp.Assoc(k, j), Now())
    {
      hide Inv, Mirrors, MapIn, Rooted, Shown, ShownMap, IsSnapshot, See, SeeStored, Added, Unwrap, KeyToProp;
      var b, v := values[i].b, values[j];
      BeanFacts(i);
      ValueFacts(j);
      var r := b.Assoc(k, v);
      HandOutNewBean(r.b);
    }

    method AssocToSnapshot(i: nat, k: Key, j: nat)
      requires Inv() && i < |values| && j < |values| && values[i].ABean?
      requires IsSnapshot(k, values[j], values[i].b.recursive)
      modifies this
      ensures Grown() && BeanGives(old(Now()), i, BeanOp.Assoc(k, j), Now())
    {
      hide Inv, Mirrors, Rooted, Shown, ShownMap, IsSnapshot, See, SeeStored, Added, Unwrap, KeyToProp;
      var b, v := values[i].b, values[j];
      BeanFacts(i);
      ValueFacts(j);
      var r := b.Assoc(k, v);
      var m := r.m;
      var beans := MapFits(m, k, v, b.obj.props, st);
      HandOutWith(r, beans);
    }

    method Dissoc(i: nat, k: Key)
      requires Inv() && i < |values| && values[i].ABean?
      modifies this
      ensures Grown() && BeanGives(old(Now()), i, BeanOp.Dissoc(k), Now())
    {
      hide Inv, Mirrors, MapIn, Rooted, Shown, ShownMap, See, SeeStored;
      BeanFacts(i);
      var b := values[i].b.Dissoc(k);
      HandOutNewBean(b);
    }

    method Lookup(i: nat, k: Key)
      requires Inv() && i < |values| && values[i].ABean?
      modifies this
      ensures Grown() && BeanGives(old(Now()), i, BeanOp.Lookup(k), Now())
    {
      hide Inv, Mirrors, MapIn, Rooted, Shown, ShownMap, See, SeeStored;
      var b := values[i].b;
      BeanFacts(i);
      var r := b.Lookup(k);
      if r.Some? {
        WrappedFits(r.value, b.obj.props[KeyToProp(k)], st);
        var beans := FitsRooted({r.value}, st);
        HandOutWith(r.value, beans);
      }
    }

    method Count(i: nat) returns (n: nat)
      requires Inv() && i < |values| && values[i].ABean?
      modifies values[i].b
      ensures Grown() && Now() == old(Now()) && n == |MapIn(values[i], st)|
    {
      hide Shown, ShownMap, See, SeeStored;
      BeanFacts(i);
      n := values[i].b.Count();
      CacheKept(i);
    }

    method Keys(i: nat) returns (ks: seq<string>)
      requires Inv() && i < |values| && values[i].ABean?
      modifies values[i].b
      ensures Grown() && Now() == old(Now()) && Lists(ks, values[i].b.obj.props.Keys)
    {
      hide Shown, ShownMap, See, SeeStored;
      BeanFacts(i);
      ks := values[i].b.Keys();
      CacheKept(i);
    }

    /** Filling a bean's caches changes nothing else. */
    twostate lemma CacheKept(i: nat)
      requires old(Inv()) && i < |old(values)| && old(values[i]).ABean?
      requires unchanged(this) && unchanged(Repr - {values[i].b}) && values[i].b.Valid()
      ensures Inv()
    {
      hide Shown, ShownSeq;
      forall j | 0 <= j < |tbeans| ensures BeanOwned(tbeans[j]) && tb[j] == ShowsBean(tbeans[j]) {
        assert old(BeanOwned(tbeans[j]) && tb[j] == ShowsBean(tbeans[j]));
        assert unchanged(tbeans[j]) && unchanged(tbeans[j].obj);
      }
      forall j | 0 <= j < |tvecs| ensures VecOwned(tvecs[j]) && tv[j] == ShowsVec(tvecs[j]) {
        assert old(VecOwned(tvecs[j]) && tv[j] == ShowsVec(tvecs[j]));
        assert unchanged(tvecs[j]) && unchanged(tvecs[j].arr);
      }
    }

    // ---------------------------------------------------------------- transient beans

    method BeanTransient(i: nat)
      requires Inv() && i < |values| && values[i].ABean?
      modifies this
      ensures Grown() && BeanGives(old(Now()), i, BeanOp.Switch, Now())
    {
      hide Inv, Mirrors, MapIn, Rooted, Shown, ShownMap, See, SeeStored;
      BeanFacts(i);
      var t := values[i].b.AsTransient();
      TakeBeanTransient(t);
    }

    method AssocT(i: nat, k: Key, j: nat)
      requires Inv() && i < |tbeans| && j < |values|
      modifies this, tbeans[i], tbeans[i].obj
      ensures Grown() && TBeanGives(old(Now()), i, BeanOp.Assoc(k, j), Now())
    {
      hide TBeanGives, IsSnapshot;
      if tbeans[i].editable && !IsSnapshot(k, values[j], tbeans[i].recursive) {
        AssocInPlace(i, k, j);
      } else {
        AssocSnapshot(i, k, j);
      }
    }

    method AssocInPlace(i: nat, k: Key, j: nat)
      requires Inv() && i < |tbeans| && j < |values|
      requires tbeans[i].editable && !IsSnapshot(k, values[j], tbeans[i].recursive)
      modifies this`tb, tbeans[i], tbeans[i].obj
      ensures Grown() && TBeanGives(old(Now()), i, BeanOp.Assoc(k, j), Now())
    {
      hide Inv, Mirrors, Rooted, Shown, ShownMap, IsSnapshot, See, SeeStored, Added, Unwrap, KeyToProp;
      var t, v := tbeans[i], values[j];
      TBeanFacts(i);
      ValueFacts(j);
      var r := t.Assoc(k, v);
      tb := tb[i := ShowsBean(t)];
      ObjWritten(i);
    }

    method AssocSnapshot(i: nat, k: Key, j: nat)
      requires Inv() && i < |tbeans| && j < |values|
      requires !(tbeans[i].editable && !IsSnapshot(k, values[j], tbeans[i].recursive))
      modifies this, tbeans[i]
      ensures Grown() && TBeanGives(old(Now()), i, BeanOp.Assoc(k, j), Now())
    {
      hide Inv, Mirrors, Rooted, Shown, ShownMap, IsSnapshot, See, SeeStored, Added, Unwrap, KeyToProp;
      var t, v := tbeans[i], values[j];
      TBeanFacts(i);
      ValueFacts(j);
      var r := t.Assoc(k, v);
      CountForgotten(i);
      TBeanFacts(i);
      if r.Ok? {
        var m := r.value.value.contents;
        var beans := MapFits(m, k, v, t.obj.props, st);
        HandOutWith(PMap(m), beans);
      }
    }

    /** A transient's count cache is no one else's. */
    twostate lemma CountForgotten(i: nat)
      requires old(Inv()) && i < |old(tbeans)|
      requires unchanged(this) && unchanged(Repr - {tbeans[i]})
      requires tbeans[i].Valid() && tbeans[i].editable == old(tbeans[i].editable)
      ensures Inv()
    {
      hide Shown, ShownSeq;
      forall j | 0 <= j < |tbeans| ensures BeanOwned(tbeans[j]) && tb[j] == ShowsBean(tbeans[j]) {
        assert old(BeanOwned(tbeans[j]) && tb[j] == ShowsBean(tbeans[j]));
        assert unchanged(tbeans[j].obj) && (tbeans[j] != tbeans[i] ==> unchanged(tbeans[j]));
      }
      forall j | 0 <= j < |tvecs| ensures VecOwned(tvecs[j]) && tv[j] == ShowsVec(tvecs[j]) {
        assert old(VecOwned(tvecs[j]) && tv[j] == ShowsVec(tvecs[j]));
        assert unchanged(tvecs[j]) && unchanged(tvecs[j].arr);
      }
    }

    method DissocT(i: nat, k: Key)
      requires Inv() && i < |tbeans|
      modifies this`tb, tbeans[i], tbeans[i].obj
      ensures Grown() && TBeanGives(old(Now()), i, BeanOp.Dissoc(k), Now())
    {
      hide Inv, Mirrors, Rooted, Shown, ShownMap, See, SeeStored, KeyToProp, GivesMap, GivesSeen, IsSnapshot;
      TBeanFacts(i);
      if tbeans[i].editable {
        DissocInPlace(i, k);
      } else {
        var _ := tbeans[i].Dissoc(k);
        CountForgotten(i);
      }
    }

    method DissocInPlace(i: nat, k: Key)
      requires Inv() && i < |tbeans| && tbeans[i].editable
      modifies this`tb, tbeans[i], tbeans[i].obj
      ensures Grown() && TBeanGives(old(Now()), i, BeanOp.Dissoc(k), Now())
    {
      hide Inv, Mirrors, Rooted, Shown, ShownMap, See, SeeStored, KeyToProp, GivesMap, GivesSeen, IsSnapshot;
      TBeanFacts(i);
      var _ := tbeans[i].Dissoc(k);
      tb := tb[i := ShowsBean(tbeans[i])];
      ObjWritten(i);
    }

    method LookupT(i: nat, k: Key)
      requires Inv() && i < |tbeans|
      modifies this
      ensures Grown() && TBeanGives(old(Now()), i, BeanOp.Lookup(k), Now())
    {
      hide Inv, Mirrors, Rooted, Shown, ShownMap, See, SeeStored, KeyToProp;
      var t := tbeans[i];
      TBeanFacts(i);
      var r := t.Lookup(k);
      TBeanFacts(i);
      if r.Ok? && r.value.Some? {
        WrappedFits(r.value.value, t.obj.props[KeyToProp(k)], st);
        var beans := FitsRooted({r.value.value}, st);
        HandOutWith(r.value.value, beans);
      }
    }

    method CountT(i: nat) returns (n: nat)
      requires Inv() && i < |tbeans|
      modifies tbeans[i]
      ensures Grown() && Now() == old(Now()) && |tb| == |tbeans| && n == |tb[i].model|
    {
      hide Inv, Mirrors, Rooted, Shown, ShownMap, See, SeeStored;
      TBeanFacts(i);
      n := tbeans[i].Count();
      CountForgotten(i);
    }

    method PersistentT(i: nat)
      requires Inv() && i < |tbeans|
      modifies this, tbeans[i]
      ensures Grown() && TBeanGives(old(Now()), i, BeanOp.Switch, Now())
    {
      hide Inv, Mirrors, MapIn, Rooted, Shown, ShownMap, See, SeeStored;
      var t := tbeans[i];
      TBeanFacts(i);
      var r := t.Persistent();
      if r.Ok? {
        tb := tb[i := ShowsBean(t)];
        BeanFrozen(i);
        HandOutBean(r.value);
      }
    }

    /** A transient bean that was frozen gives its object up. */
    twostate lemma BeanFrozen(i: nat)
      requires old(Inv()) && i < |old(tbeans)| && old(tbeans[i].editable)
      requires unchanged(this`st, this`values, this`tbeans, this`tvecs, this`Repr, this`tv)
      requires unchanged(Repr - {this, tbeans[i]})
      requires tb == old(tb)[i := ShowsBean(tbeans[i])]
      requires tbeans[i].Valid() && !tbeans[i].editable
      ensures Inv() && tbeans[i].obj !in st.objs
      ensures forall j :: 0 <= j < |tbeans| && tbeans[j].editable ==> tbeans[j].obj != tbeans[i].obj
    {
      hide Shown, ShownSeq;
      forall j | 0 <= j < |tbeans| ensures BeanOwned(tbeans[j]) && tb[j] == ShowsBean(tbeans[j]) {
        assert old(BeanOwned(tbeans[j]) && tb[j] == ShowsBean(tbeans[j]));
        assert unchanged(tbeans[j].obj);
        assert j != i ==> tbeans[j].obj != tbeans[i].obj && tbeans[j] != tbeans[i] && unchanged(tbeans[j]);
      }
      forall j | 0 <= j < |tvecs| ensures VecOwned(tvecs[j]) && tv[j] == ShowsVec(tvecs[j]) {
        assert old(VecOwned(tvecs[j]) && tv[j] == ShowsVec(tvecs[j]));
        assert unchanged(tvecs[j]) && unchanged(tvecs[j].arr);
      }
    }

    // ---------------------------------------------------------------- vectors

    method Conj(i: nat, j: nat)
      requires Inv() && i < |values| && j < |values| && values[i].AVector?
      modifies this
      ensures Grown() && VectorGives(old(Now()), i, VectorOp.Conj(j), Now())
    {
      hide Inv, Mirrors, Rooted, ShownSeq, SeenSeq, CompatibleValue, See, SeeStored, Added, Unwrap;
      var w, v := values[i].v, values[j];
      VectorFacts(i);
      ValueFacts(j);
      var r := w.Conj(v);
      if r.AVector? {
        HandOutNewVector(r.v);
      } else {
        var beans := SeqFits(r.s, v, w.arr.items, st);
        HandOutWith(r, beans);
      }
    }

    method AssocN(i: nat, n: int, j: nat)
      requires Inv() && i < |values| && j < |values| && values[i].AVector?
      modifies this
      ensures Grown() && VectorGives(old(Now()), i, VectorOp.AssocN(n, j), Now())
    {
      hide Inv, VectorGives, CompatibleValue;
      if CompatibleValue(values[j], true) {
        AssocNToCopy(i, n, j);
      } else {
        AssocNToSnapshot(i, n, j);
      }
    }

    method AssocNToCopy(i: nat, n: int, j: nat)
      requires Inv() && i < |values| && j < |values| && values[i].AVector? && CompatibleValue(values[j], true)
      modifies this
      ensures Grown() && VectorGives(old(Now()), i, VectorOp.AssocN(n, j), Now())
    {
      hide Inv, Mirrors, Rooted, ShownSeq, SeenSeq, CompatibleValue, See, SeeStored, Added, Unwrap;
      var w, v := values[i].v, values[j];
      VectorFacts(i);
      ValueFacts(j);
      var r := w.AssocN(n, v);
      if r.Ok? {
        HandOutNewVector(r.value.v);
      }
    }

    method AssocNToSnapshot(i: nat, n: int, j: nat)
      requires Inv() && i < |values| && j < |values| && values[i].AVector? && !CompatibleValue(values[j], true)
      modifies this
      ensures Grown() && VectorGives(old(Now()), i, VectorOp.AssocN(n, j), Now())
    {
      hide Inv, Mirrors, Rooted, ShownSeq, SeenSeq, CompatibleValue, See, SeeStored, Added, Unwrap;
      var w, v := values[i].v, values[j];
      VectorFacts(i);
      ValueFacts(j);
      var r := w.AssocN(n, v);
      if r.Ok? {
        var beans := SeqFits(r.value.s, v, w.arr.items, st);
        HandOutWith(r.value, beans);
      }
    }

    method Pop(i: nat)
      requires Inv() && i < |values| && values[i].AVector?
      modifies this
      ensures Grown() && VectorGives(old(Now()), i, VectorOp.Pop, Now())
    {
      hide Inv, Mirrors, Rooted, ShownSeq, SeenSeq, See, SeeStored;
      var w := values[i].v;
      VectorFacts(i);
      var r := w.Pop();
      if r.Ok? {
        HandOutNewVector(r.value);
      }
    }

    method Nth(i: nat, n: int)
      requires Inv() && i < |values| && values[i].AVector?
      modifies this
      ensures Grown() && VectorGives(old(Now()), i, VectorOp.Nth(n), Now())
    {
      hide Inv, Mirrors, Rooted, ShownSeq, SeenSeq, See, SeeStored;
      var w := values[i].v;
      VectorFacts(i);
      var r := w.Nth(n);
      if r.Ok? {
        WrappedFits(r.value, w.arr.items[n], st);
        var beans := FitsRooted({r.value}, st);
        HandOutWith(r.value, beans);
      }
    }

    // ---------------------------------------------------------------- transient vectors

    method VecTransient(i: nat)
      requires Inv() && i < |values| && values[i].AVector?
      modifies this
      ensures Grown() && VectorGives(old(Now()), i, VectorOp.Switch, Now())
    {
      hide Inv, Mirrors, Rooted, ShownSeq, SeenSeq, See, SeeStored;
      VectorFacts(i);
      var t := values[i].v.AsTransient();
      TakeVecTransient(t);
    }

    method ConjT(i: nat, j: nat)
      requires Inv() && i < |tvecs| && j < |values|
      modifies this, tvecs[i].arr
      ensures Grown() && TVecGives(old(Now()), i, VectorOp.Conj(j), Now())
    {
      hide Inv, Mirrors, Rooted, ShownSeq, SeenSeq, CompatibleValue, See, SeeStored, Added, Unwrap;
      var t, v := tvecs[i], values[j];
      TVecFacts(i);
      ValueFacts(j);
      var r := t.Conj(v);
      if r.Ok? && r.value.None? {
        tv := tv[i := ShowsVec(t)];
        ArrWritten(i);
      } else if r.Ok? {
        TVecFacts(i);
        var s := r.value.value.contents;
        var beans := SeqFits(s, v, t.arr.items, st);
        HandOutWith(PVec(s), beans);
      }
    }

    method AssocNT(i: nat, n: int, j: nat)
      requires Inv() && i < |tvecs| && j < |values|
      modifies this, tvecs[i].arr
      ensures Grown() && TVecGives(old(Now()), i, VectorOp.AssocN(n, j), Now())
    {
      hide Inv, Mirrors, Rooted, ShownSeq, SeenSeq, CompatibleValue, See, SeeStored, Added, Unwrap;
      var t, v := tvecs[i], values[j];
      TVecFacts(i);
      ValueFacts(j);
      var r := t.AssocN(n, v);
      if r.Ok? && r.value.None? {
        tv := tv[i := ShowsVec(t)];
        ArrWritten(i);
      } else if r.Ok? {
        TVecFacts(i);
        var s := r.value.value.contents;
        var beans := SeqFits(s, v, t.arr.items, st);
        HandOutWith(PVec(s), beans);
      } else if t.editable {
        assert tv[i := ShowsVec(t)] == tv;
        ArrWritten(i);
      }
    }

    method PopT(i: nat)
      requires Inv() && i < |tvecs|
      modifies this, tvecs[i]
      ensures Grown() && TVecGives(old(Now()), i, VectorOp.Pop, Now())
    {
      hide Inv, Mirrors, Rooted, ShownSeq, SeenSeq, See, SeeStored;
      var t := tvecs[i];
      var items := t.arr.items;
      TVecFacts(i);
      var r := t.Pop();
      if r.Ok? {
        Repr := Repr + {t.arr};
        tv := tv[i := ShowsVec(t)];
        ArrReplaced(i);
      }
    }

    /** A transient vector goes on with a new array. */
    twostate lemma ArrReplaced(i: nat)
      requires old(Inv()) && i < |old(tvecs)| && old(tvecs[i].editable)
      requires unchanged(this`st, this`values, this`tbeans, this`tvecs, this`tb)
      requires fresh(tvecs[i].arr) && Repr == old(Repr) + {tvecs[i].arr}
      requires unchanged(old(Repr) - {this, tvecs[i]})
      requires tv == old(tv)[i := ShowsVec(tvecs[i])]
      requires tvecs[i].editable && forall n :: 0 <= n < |tvecs[i].arr.items| ==> Rooted(tvecs[i].arr.items[n], st)
      ensures Inv()
    {
      hide Shown, ShownSeq;
      forall j | 0 <= j < |tbeans| ensures BeanOwned(tbeans[j]) && tb[j] == ShowsBean(tbeans[j]) {
        assert old(BeanOwned(tbeans[j]) && tb[j] == ShowsBean(tbeans[j]));
        assert unchanged(tbeans[j]) && unchanged(tbeans[j].obj);
      }
      forall j | 0 <= j < |tvecs|
        ensures VecOwned(tvecs[j]) && tv[j] == ShowsVec(tvecs[j]) && (j != i ==> tvecs[j].arr == old(tvecs[j].arr))
      {
        if j != i {
          assert old(VecOwned(tvecs[j]) && tv[j] == ShowsVec(tvecs[j]) && tvecs[j].arr != tvecs[i].arr);
          assert unchanged(tvecs[j]) && unchanged(tvecs[j].arr);
        }
      }
    }

    method PersistentVT(i: nat)
      requires Inv() && i < |tvecs|
      modifies this, tvecs[i]
      ensures Grown() && TVecGives(old(Now()), i, VectorOp.Switch, Now())
    {
      hide Inv, Mirrors, SeqIn, Rooted, ShownSeq, SeenSeq, See, SeeStored;
      var t := tvecs[i];
      TVecFacts(i);
      var r := t.Persistent();
      if r.Ok? {
        tv := tv[i := ShowsVec(t)];
        VecFrozen(i);
        HandOutVector(r.value);
      }
    }

    /** A transient vector that was frozen gives its array up. */
    twostate lemma VecFrozen(i: nat)
      requires old(Inv()) && i < |old(tvecs)| && old(tvecs[i].editable)
      requires unchanged(this`st, this`values, this`tbeans, this`tvecs, this`Repr, this`tb)
      requires unchanged(Repr - {this, tvecs[i]}) && tvecs[i].arr == old(tvecs[i].arr)
      requires tv == old(tv)[i := ShowsVec(tvecs[i])] && !tvecs[i].editable
      ensures Inv() && tvecs[i].arr !in st.arrs
      ensures forall j :: 0 <= j < |tvecs| && tvecs[j].editable ==> tvecs[j].arr != tvecs[i].arr
    {
      hide Shown, ShownSeq;
      forall j | 0 <= j < |tbeans| ensures BeanOwned(tbeans[j]) && tb[j] == ShowsBean(tbeans[j]) {
        assert old(BeanOwned(tbeans[j]) && tb[j] == ShowsBean(tbeans[j]));
        assert unchanged(tbeans[j]) && unchanged(tbeans[j].obj);
      }
      forall j | 0 <= j < |tvecs|
        ensures VecOwned(tvecs[j]) && tv[j] == ShowsVec(tvecs[j]) && tvecs[j].arr == old(tvecs[j].arr)
      {
        assert old(VecOwned(tvecs[j]) && tv[j] == ShowsVec(tvecs[j]));
        if j != i {
          assert old(tvecs[j].arr != tvecs[i].arr);
          assert unchanged(tvecs[j]) && unchanged(tvecs[j].arr);
        }
      }
    }

    // ---------------------------------------------------------------- runs

    method OnBean(i: nat, op: BeanOp)
      requires Inv() && i < |values| && values[i].ABean?
      modifies Repr
      ensures Grown() && BeanGives(old(Now()), i, op, Now())
    {
      match op {
        case Assoc(k, j) => if j < |values| { Assoc(i, k, j); }
        case Dissoc(k) => Dissoc(i, k);
        case Lookup(k) => Lookup(i, k);
        case Count => var n := Count(i);
        case Keys => var ks := Keys(i);
        case Switch => BeanTransient(i);
      }
    }

    method OnVector(i: nat, op: VectorOp)
      requires Inv() && i < |values| && values[i].AVector?
      modifies Repr
      ensures Grown() && VectorGives(old(Now()), i, op, Now())
    {
      match op {
        case Conj(j) => if j < |values| { Conj(i, j); }
        case AssocN(n, j) => if j < |values| { AssocN(i, n, j); }
        case Pop => Pop(i);
        case Nth(n) => Nth(i, n);
        case Switch => VecTransient(i);
      }
    }

    method OnTransientBean(i: nat, op: BeanOp)
      requires Inv() && i < |tbeans|
      modifies Repr
      ensures Grown() && TBeanGives(old(Now()), i, op, Now())
    {
      match op {
        case Assoc(k, j) => if j < |values| { AssocT(i, k, j); }
        case Dissoc(k) => DissocT(i, k);
        case Lookup(k) => LookupT(i, k);
        case Count => var n := CountT(i);
        case Keys =>
        case Switch => PersistentT(i);
      }
    }

    method OnTransientVector(i: nat, op: VectorOp)
      requires Inv() && i < |tvecs|
      modifies Repr
      ensures Grown() && TVecGives(old(Now()), i, op, Now())
    {
      match op {
        case Conj(j) => if j < |values| { ConjT(i, j); }
        case AssocN(n, j) => if j < |values| { AssocNT(i, n, j); }
        case Pop => PopT(i);
        case Nth(_) =>
        case Switch => PersistentVT(i);
      }
    }

    method Step(op: Op)
      requires Inv()
      modifies Repr
      ensures Grown() && StepGives(old(Now()), op, Now())
    {
      match op {
        case MakePrim(n) => MakePrim(n);
        case MakeObject(entries) => if forall p :: p in entries ==> entries[p] < |values| { MakeObject(entries); }
        case MakeArray(picks) => if forall i :: 0 <= i < |picks| ==> picks[i] < |values| { MakeArray(picks); }
        case ToClj(i, recursive) => if i < |values| { ToClj(i, recursive); }
        case OnBean(i, b) => if i < |values| && values[i].ABean? { OnBean(i, b); }
        case OnVector(i, v) => if i < |values| && values[i].AVector? { OnVector(i, v); }
        case OnTransientBean(i, b) => if i < |tbeans| { OnTransientBean(i, b); }
        case OnTransientVector(i, v) => if i < |tvecs| { OnTransientVector(i, v); }
      }
    }

    /** Every step of a run gives what its operation should. And every value handed out before
        it is what it was after it, at every depth; every bean and vector shows the map and
        sequence it did. */
    method Run(ops: seq<Op>) returns (ghost trace: seq<Snap>)
      requires Inv()
      modifies Repr
      ensures Grown() && |trace| == |ops| + 1 && trace[0] == old(Now()) && trace[|ops|] == Now()
      ensures forall k :: 0 <= k < |ops| ==>
        StepGives(trace[k], ops[k], trace[k + 1]) && Within(trace[k].st, trace[k + 1].st)
      ensures forall i :: 0 <= i < |old(values)| ==> RootedObs(See(values[i]), st)
      ensures forall i, n: nat :: 0 <= i < |old(values)| ==>
        Deep(See(values[i]), n, st) == old(Deep(See(values[i]), n, st))
      ensures forall i :: 0 <= i < |old(values)| && values[i].ABean? ==>
        values[i].b.Model() == old(values[i].b.Model())
      ensures forall i :: 0 <= i < |old(values)| && values[i].AVector? ==>
        values[i].v.Model() == old(values[i].v.Model())
    {
      hide StepGives, Shown, ShownSeq, See, SeeStored;
      ghost var was, st0 := values, st;
      trace := [Now()];
      for k := 0 to |ops|
        invariant Grown() && |trace| == k + 1 && trace[0] == old(Now()) && trace[k] == Now()
        invariant forall m :: 0 <= m < k ==>
          StepGives(trace[m], ops[m], trace[m + 1]) && Within(trace[m].st, trace[m + 1].st)
      {
        Step(ops[k]);
        trace := trace + [Now()];
      }
      SameDeep(was, st0, values, st);
    }
  }

  lemma SameDeep(was: seq<Val>, st0: Store, values: seq<Val>, st: Store)
    requires was <= values && Within(st0, st) && Closed(st0) && Closed(st)
    requires forall i :: 0 <= i < |was| ==> Rooted(was[i], st0)
    requires forall i :: 0 <= i < |values| ==> Rooted(values[i], st)
    ensures forall i :: 0 <= i < |was| ==> RootedObs(See(values[i]), st) && RootedObs(See(values[i]), st0)
    ensures forall i, n: nat :: 0 <= i < |was| ==> Deep(See(values[i]), n, st) == Deep(See(values[i]), n, st0)
  {
    forall i | 0 <= i < |was| ensures RootedObs(See(was[i]), st0) && RootedObs(See(values[i]), st) {
      StoredRooted(was[i], true, st0);
      StoredRooted(values[i], true, st);
    }
    forall i, n: nat | 0 <= i < |was|
      ensures Deep(See(values[i]), n, st) == Deep(See(values[i]), n, st0)
    {
      DeepGrows(See(was[i]), n, st0, st);
    }
  }
}
