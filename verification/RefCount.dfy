/** GObjWrapper: a smart pointer over objects with a manual reference count
    (rtsp-streams.hpp). Assignment releases the old object before it takes the new one. */
module RefCount {
  import opened Text

  /** The address of an object. A freed address may be used again for a new object. */
  type Obj = nat

  /** Live objects with their counts, the references held outside any wrapper, the pointers of
      the existing wrappers, and whether a ref or unref ever touched an object not alive. */
  datatype World<W(==)> = World(count: map<Obj, nat>, outside: map<Obj, nat>, ptr: map<W, Option<Obj>>, faulted: bool)

  function At(m: map<Obj, nat>, o: Obj): nat {
    if o in m then m[o] else 0
  }

  // ---------------------------------------------------------------- the counted objects

  /** g_object_unref: the last reference frees the object. */
  function Unref(count: map<Obj, nat>, o: Obj): map<Obj, nat> {
    if At(count, o) <= 1 then count - {o} else count[o := count[o] - 1]
  }

  /** g_object_ref */
  function Ref(count: map<Obj, nat>, o: Obj): map<Obj, nat> {
    if o in count then count[o := count[o] + 1] else count
  }

  // ---------------------------------------------------------------- wrapper operations

  /** unref(): release the object, if any, and forget it. */
  function Release<W>(w: World<W>, x: W): World<W>
    requires x in w.ptr
  {
    match w.ptr[x]
    case None => w
    case Some(o) => w.(count := Unref(w.count, o), ptr := w.ptr[x := None], faulted := w.faulted || o !in w.count)
  }

  /** ref(): take a reference to the object, if any. */
  function Retain<W>(w: World<W>, x: W): World<W>
    requires x in w.ptr
  {
    match w.ptr[x]
    case None => w
    case Some(o) => w.(count := Ref(w.count, o), faulted := w.faulted || o !in w.count)
  }

  /** ptr = other.ptr */
  function Point<W>(w: World<W>, x: W, src: W): World<W>
    requires src in w.ptr
  {
    w.(ptr := w.ptr[x := w.ptr[src]])
  }

  /** ptr = std::exchange(other.ptr, nullptr) */
  function Exchange<W>(w: World<W>, x: W, src: W): World<W>
    requires src in w.ptr
  {
    w.(ptr := w.ptr[src := None][x := w.ptr[src]])
  }

  datatype Op<W> =
    | Adopt(x: W, p: Option<Obj>)
    | CopyConstruct(x: W, src: W)
    | MoveConstruct(x: W, src: W)
    | CopyAssign(x: W, src: W)
    | MoveAssign(x: W, src: W)
    | Destroy(x: W)
    | OutsideNew(o: Obj)
    | OutsideRef(o: Obj)
    | OutsideUnref(o: Obj)

  /** What C++ and the library ask of the program: constructors make new wrappers, everything
      else uses existing ones; a pointer is adopted together with a reference the adopter
      owns; code outside takes references to live objects only and gives back its own. */
  predicate Enabled<W>(w: World<W>, op: Op<W>) {
    match op
    case Adopt(x, p) => x !in w.ptr && (p.Some? ==> At(w.outside, p.value) > 0)
    case CopyConstruct(x, src) => x !in w.ptr && src in w.ptr
    case MoveConstruct(x, src) => x !in w.ptr && src in w.ptr
    case CopyAssign(x, src) => x in w.ptr && src in w.ptr
    case MoveAssign(x, src) => x in w.ptr && src in w.ptr
    case Destroy(x) => x in w.ptr
    case OutsideNew(o) => o !in w.count
    case OutsideRef(o) => o in w.count
    case OutsideUnref(o) => At(w.outside, o) > 0
  }

  function Step<W>(w: World<W>, op: Op<W>): World<W>
    requires Enabled(w, op)
  {
    match op
    case Adopt(x, p) =>
      var w' := w.(ptr := w.ptr[x := p]);
      if p.Some? then w'.(outside := w.outside[p.value := At(w.outside, p.value) - 1]) else w'
    case CopyConstruct(x, src) => Retain(Point(w, x, src), x)
    case MoveConstruct(x, src) => Exchange(w, x, src)
    case CopyAssign(x, src) => Retain(Point(Release(w, x), x, src), x)
    case MoveAssign(x, src) => Exchange(Release(w, x), x, src)
    case Destroy(x) => var w' := Release(w, x); w'.(ptr := w'.ptr - {x})
    case OutsideNew(o) => w.(count := w.count[o := 1], outside := w.outside[o := At(w.outside, o) + 1])
    case OutsideRef(o) => w.(count := Ref(w.count, o), outside := w.outside[o := At(w.outside, o) + 1])
    case OutsideUnref(o) =>
      w.(count := Unref(w.count, o), outside := w.outside[o := At(w.outside, o) - 1],
         faulted := w.faulted || o !in w.count)
  }

  // ---------------------------------------------------------------- implementation

  class GObjects {
    var count: map<Obj, nat>
    var faulted: bool

    constructor ()
      ensures count == map[] && !faulted
    {
      count, faulted := map[], false;
    }

    method DoUnref(o: Obj)
      modifies this
      ensures count == Unref(old(count), o) && faulted == (old(faulted) || o !in old(count))
    {
      faulted := faulted || o !in count;
      if At(count, o) <= 1 {
        count := count - {o};
      } else {
        count := count[o := count[o] - 1];
      }
    }

    method DoRef(o: Obj)
      modifies this
      ensures count == Ref(old(count), o) && faulted == (old(faulted) || o !in old(count))
    {
      faulted := faulted || o !in count;
      if o in count {
        count := count[o := count[o] + 1];
      }
    }
  }

  /** The world made of the wrappers ws and the objects in h. */
  ghost function View(ws: set<GObjWrapper>, h: GObjects, outside: map<Obj, nat>): World<GObjWrapper>
    reads ws, h
  {
    World(h.count, outside, map w | w in ws :: w.ptr, h.faulted)
  }

  class GObjWrapper {
    var ptr: Option<Obj>

    constructor (gObj: Option<Obj>)
      ensures ptr == gObj
    {
      ptr := gObj;
    }

    /** GObjWrapper(GObjWrapper const &) */
    constructor Copy(other: GObjWrapper, h: GObjects, ghost ws: set<GObjWrapper>, ghost outside: map<Obj, nat>)
      requires other in ws
      modifies h
      ensures this !in ws
      ensures View(ws + {this}, h, outside) == Step(old(View(ws, h, outside)), CopyConstruct(this, other))
    {
      ptr := other.ptr;
      new;
      DoRetain(h, ws + {this}, outside);
    }

    /** GObjWrapper(GObjWrapper &&) */
    constructor Move(other: GObjWrapper, h: GObjects, ghost ws: set<GObjWrapper>, ghost outside: map<Obj, nat>)
      requires other in ws
      modifies other
      ensures this !in ws
      ensures View(ws + {this}, h, outside) == Step(old(View(ws, h, outside)), MoveConstruct(this, other))
    {
      ptr := other.ptr;
      new;
      other.ptr := None;
    }

    /** operator=(GObjWrapper const &) */
    method DoCopyAssign(other: GObjWrapper, h: GObjects, ghost ws: set<GObjWrapper>, ghost outside: map<Obj, nat>)
      requires this in ws && other in ws
      modifies this, h
      ensures View(ws, h, outside) == Step(old(View(ws, h, outside)), CopyAssign(this, other))
    {
      DoRelease(h, ws, outside);
      ptr := other.ptr;
      DoRetain(h, ws, outside);
    }

    /** operator=(GObjWrapper &&) */
    method DoMoveAssign(other: GObjWrapper, h: GObjects, ghost ws: set<GObjWrapper>, ghost outside: map<Obj, nat>)
      requires this in ws && other in ws
      modifies this, other, h
      ensures View(ws, h, outside) == Step(old(View(ws, h, outside)), MoveAssign(this, other))
    {
      DoRelease(h, ws, outside);
      var p := other.ptr;
      other.ptr := None;
      ptr := p;
    }

    /** ~GObjWrapper() */
    method DoDestroy(h: GObjects, ghost ws: set<GObjWrapper>, ghost outside: map<Obj, nat>)
      requires this in ws
      modifies this, h
      ensures View(ws - {this}, h, outside) == Step(old(View(ws, h, outside)), Destroy(this))
    {
      DoRelease(h, ws, outside);
    }

    /** unref() */
    method DoRelease(h: GObjects, ghost ws: set<GObjWrapper>, ghost outside: map<Obj, nat>)
      requires this in ws
      modifies this, h
      ensures View(ws, h, outside) == Release(old(View(ws, h, outside)), this)
      ensures ptr == None
    {
      if ptr.Some? {
        h.DoUnref(ptr.value);
      }
      ptr := None;
    }

    /** ref() */
    method DoRetain(h: GObjects, ghost ws: set<GObjWrapper>, ghost outside: map<Obj, nat>)
      requires this in ws
      modifies h
      ensures View(ws, h, outside) == Retain(old(View(ws, h, outside)), this)
    {
      if ptr.Some? {
        h.DoRef(ptr.value);
      }
    }
  }

  // ---------------------------------------------------------------- balance

  /** The number of wrappers that point to o. */
  ghost function Pointers<W>(ptr: map<W, Option<Obj>>, o: Obj): nat {
    |set x | x in ptr && ptr[x] == Some(o)|
  }

  /** Every count is the outside references plus the wrappers pointing to the object, objects
      without references are gone, and nothing dead was ever touched. */
  ghost predicate Balanced<W>(w: World<W>) {
    && !w.faulted
    && (forall o | o in w.count :: w.count[o] > 0)
    && forall o: Obj :: At(w.count, o) == At(w.outside, o) + Pointers(w.ptr, o)
  }

  function One(b: bool): nat {
    if b then 1 else 0
  }

  lemma PointersWithout<W>(ptr: map<W, Option<Obj>>, x: W, o: Obj)
    ensures Pointers(ptr, o) == Pointers(ptr - {x}, o) + One(x in ptr && ptr[x] == Some(o))
  {
    var s := set y | y in ptr && ptr[y] == Some(o);
    var t := set y | y in ptr - {x} && (ptr - {x})[y] == Some(o);
    if x in ptr && ptr[x] == Some(o) {
      assert s == t + {x};
    } else {
      assert s == t;
    }
  }

  /** Redirecting one pointer. */
  lemma PointersUpdate<W>(ptr: map<W, Option<Obj>>, x: W, p: Option<Obj>, o: Obj)
    ensures Pointers(ptr[x := p], o) == Pointers(ptr, o) + One(p == Some(o)) - One(x in ptr && ptr[x] == Some(o))
  {
    PointersWithout(ptr, x, o);
    PointersWithout(ptr[x := p], x, o);
    assert ptr[x := p] - {x} == ptr - {x};
  }

  lemma PointedIsLive<W>(w: World<W>, x: W)
    requires Balanced(w) && x in w.ptr && w.ptr[x].Some?
    ensures w.ptr[x].value in w.count
  {
    PointersWithout(w.ptr, x, w.ptr[x].value);
  }

  lemma ReleaseBalanced<W>(w: World<W>, x: W)
    requires Balanced(w) && x in w.ptr
    ensures Balanced(Release(w, x))
  {
    if w.ptr[x].Some? {
      PointedIsLive(w, x);
      forall o: Obj ensures At(Release(w, x).count, o) == At(w.outside, o) + Pointers(Release(w, x).ptr, o) {
        PointersUpdate(w.ptr, x, None, o);
      }
    }
  }

  lemma ShareBalanced<W>(w: World<W>, x: W, src: W)
    requires Balanced(w) && src in w.ptr && (x in w.ptr ==> w.ptr[x] == None)
    ensures Balanced(Retain(Point(w, x, src), x))
  {
    if w.ptr[src].Some? {
      PointedIsLive(w, src);
    }
    var w' := Retain(Point(w, x, src), x);
    forall o: Obj ensures At(w'.count, o) == At(w'.outside, o) + Pointers(w'.ptr, o) {
      PointersUpdate(w.ptr, x, w.ptr[src], o);
    }
  }

  lemma ExchangeBalanced<W>(w: World<W>, x: W, src: W)
    requires Balanced(w) && src in w.ptr && (x in w.ptr ==> w.ptr[x] == None)
    ensures Balanced(Exchange(w, x, src))
  {
    forall o: Obj ensures At(w.count, o) == At(w.outside, o) + Pointers(Exchange(w, x, src).ptr, o) {
      PointersUpdate(w.ptr, src, None, o);
      PointersUpdate(w.ptr[src := None], x, w.ptr[src], o);
    }
  }

  lemma ForgetBalanced<W>(w: World<W>, x: W)
    requires Balanced(w) && x in w.ptr && w.ptr[x] == None
    ensures Balanced(w.(ptr := w.ptr - {x}))
  {
    forall o: Obj ensures Pointers(w.ptr - {x}, o) == Pointers(w.ptr, o) {
      PointersWithout(w.ptr, x, o);
    }
  }

  lemma AdoptBalanced<W>(w: World<W>, x: W, p: Option<Obj>)
    requires Balanced(w) && Enabled(w, Adopt(x, p))
    ensures Balanced(Step(w, Adopt(x, p)))
  {
    var w' := Step(w, Adopt(x, p));
    forall o: Obj ensures At(w'.count, o) == At(w'.outside, o) + Pointers(w'.ptr, o) {
      PointersUpdate(w.ptr, x, p, o);
    }
  }

  /** Every operation keeps the balance; in particular no ref or unref touches an object that
      is not alive, although assignment releases before it retains. */
  lemma StepBalanced<W>(w: World<W>, op: Op<W>)
    requires Balanced(w) && Enabled(w, op)
    ensures Balanced(Step(w, op))
  {
    match op {
      case Adopt(x, p) => AdoptBalanced(w, x, p);
      case CopyConstruct(x, src) => ShareBalanced(w, x, src);
      case MoveConstruct(x, src) => ExchangeBalanced(w, x, src);
      case CopyAssign(x, src) =>
        ReleaseBalanced(w, x);
        ShareBalanced(Release(w, x), x, src);
      case MoveAssign(x, src) =>
        ReleaseBalanced(w, x);
        ExchangeBalanced(Release(w, x), x, src);
      case Destroy(x) =>
        ReleaseBalanced(w, x);
        ForgetBalanced(Release(w, x), x);
      case OutsideNew(o) =>
      case OutsideRef(o) =>
      case OutsideUnref(o) =>
    }
  }

  // ---------------------------------------------------------------- runs

  ghost predicate EnabledRun<W>(w: World<W>, ops: seq<Op<W>>)
    decreases |ops|
  {
    ops == [] || (Enabled(w, ops[0]) && EnabledRun(Step(w, ops[0]), ops[1..]))
  }

  ghost function Run<W>(w: World<W>, ops: seq<Op<W>>): World<W>
    requires EnabledRun(w, ops)
    decreases |ops|
  {
    if ops == [] then w else Run(Step(w, ops[0]), ops[1..])
  }

  ghost function Empty<W>(): World<W> {
    World(map[], map[], map[], false)
  }

  /** Over every finite interleaving of operations the counts stay balanced. */
  lemma {:induction false} RunBalanced<W>(w: World<W>, ops: seq<Op<W>>)
    requires Balanced(w) && EnabledRun(w, ops)
    ensures Balanced(Run(w, ops))
    decreases |ops|
  {
    if ops != [] {
      StepBalanced(w, ops[0]);
      RunBalanced(Step(w, ops[0]), ops[1..]);
    }
  }

  /** Destroying the wrappers xs one after the other. */
  ghost function DestroyAll<W>(w: World<W>, xs: seq<W>): World<W>
    requires forall x | x in xs :: x in w.ptr
    requires forall i, j | 0 <= i < j < |xs| :: xs[i] != xs[j]
    decreases |xs|
  {
    if xs == [] then w
    else
      assert forall i | 1 <= i < |xs| :: xs[i] == xs[1..][i - 1];
      DestroyAll(Step(w, Destroy(xs[0])), xs[1..])
  }

  /** After any run from nothing, destroying all the wrappers, in any order, leaves every
      object with exactly its outside references; an object without any is freed. */
  lemma DestroyAllReturnsToOutside<W>(ops: seq<Op<W>>, xs: seq<W>)
    requires EnabledRun(Empty<W>(), ops)
    requires forall x :: x in xs <==> x in Run(Empty<W>(), ops).ptr
    requires forall i, j | 0 <= i < j < |xs| :: xs[i] != xs[j]
    ensures var before := Run(Empty<W>(), ops);
            var after := DestroyAll(before, xs);
            && after.ptr == map[] && !after.faulted && after.outside == before.outside
            && forall o: Obj ::
                 At(after.count, o) == At(before.outside, o) && (o in after.count <==> At(before.outside, o) > 0)
  {
    assert Balanced(Empty<W>()) by {
      forall o: Obj ensures Pointers(Empty<W>().ptr, o) == 0 {
        NoPointers<W>(o);
      }
    }
    RunBalanced(Empty<W>(), ops);
    var before := Run(Empty<W>(), ops);
    DestroyAllBalanced(before, xs);
    assert DestroyAll(before, xs).ptr == map[];
    forall o: Obj ensures Pointers(DestroyAll(before, xs).ptr, o) == 0 {
      NoPointers<W>(o);
    }
  }

  lemma NoPointers<W>(o: Obj)
    ensures Pointers<W>(map[], o) == 0
  {
    var ptr: map<W, Option<Obj>> := map[];
    assert (set x | x in ptr && ptr[x] == Some(o)) == {};
  }

  lemma {:induction false} DestroyAllBalanced<W>(w: World<W>, xs: seq<W>)
    requires Balanced(w)
    requires forall x | x in xs :: x in w.ptr
    requires forall i, j | 0 <= i < j < |xs| :: xs[i] != xs[j]
    ensures var r := DestroyAll(w, xs);
            Balanced(r) && r.outside == w.outside && r.ptr.Keys == w.ptr.Keys - set x | x in xs
    decreases |xs|
  {
    if xs != [] {
      StepBalanced(w, Destroy(xs[0]));
      var w' := Step(w, Destroy(xs[0]));
      assert forall i | 1 <= i < |xs| :: xs[i] == xs[1..][i - 1];
      DestroyAllBalanced(w', xs[1..]);
      assert (set x | x in xs) == {xs[0]} + set x | x in xs[1..];
      assert w'.ptr.Keys == w.ptr.Keys - {xs[0]};
    }
  }

  // ---------------------------------------------------------------- what each operation does

  /** A new wrapper x. A copy of src points to its object, which gains a reference. A move takes
      the object over, leaves src null and changes no count. A wrapper of a raw pointer takes
      over one outside reference. Nothing else changes. */
  lemma ConstructionEffect<W>(w: World<W>, x: W, src: W, p: Option<Obj>)
    requires Balanced(w) && x !in w.ptr && src in w.ptr
    ensures var w' := Step(w, CopyConstruct(x, src));
            && w'.ptr == w.ptr[x := w.ptr[src]] && w'.outside == w.outside
            && forall o: Obj :: At(w'.count, o) == At(w.count, o) + One(w.ptr[src] == Some(o))
    ensures var w' := Step(w, MoveConstruct(x, src));
            && w'.ptr == w.ptr[src := None][x := w.ptr[src]] && w'.outside == w.outside && w'.count == w.count
    ensures (p.Some? ==> At(w.outside, p.value) > 0) ==>
              var w' := Step(w, Adopt(x, p));
              && w'.ptr == w.ptr[x := p] && w'.count == w.count
              && forall o: Obj :: At(w'.outside, o) == At(w.outside, o) - One(p == Some(o))
  {
    if w.ptr[src].Some? {
      PointedIsLive(w, src);
    }
  }

  /** Outside activity: a new object has one reference, and each further reference outside any
      wrapper is counted once; an object leaves exactly with its last reference. */
  lemma OutsideEffect<W>(w: World<W>, o: Obj)
    requires Balanced(w)
    ensures o !in w.count ==> Step(w, OutsideNew(o)) == w.(count := w.count[o := 1], outside := w.outside[o := 1])
    ensures o in w.count ==>
              Step(w, OutsideRef(o)) ==
              w.(count := w.count[o := At(w.count, o) + 1], outside := w.outside[o := At(w.outside, o) + 1])
    ensures At(w.outside, o) > 0 ==>
              var w' := Step(w, OutsideUnref(o));
              && w'.outside == w.outside[o := At(w.outside, o) - 1] && w'.ptr == w.ptr && !w'.faulted
              && w'.count == if At(w.count, o) == 1 then w.count - {o} else w.count[o := At(w.count, o) - 1]
  {
    assert At(w.count, o) == At(w.outside, o) + Pointers(w.ptr, o);
  }

  /** The destructor gives the wrapper's reference back and removes the wrapper. */
  lemma DestroyEffect<W>(w: World<W>, x: W)
    requires Balanced(w) && x in w.ptr
    ensures var w' := Step(w, Destroy(x));
            && w'.ptr == w.ptr - {x} && w'.outside == w.outside
            && (forall o: Obj :: At(w'.count, o) == At(w.count, o) - One(w.ptr[x] == Some(o)))
            && (forall o: Obj :: At(w.count, o) == 1 && w.ptr[x] == Some(o) ==> o !in w'.count)
  {
    if w.ptr[x].Some? {
      PointedIsLive(w, x);
    }
  }

  /** Copy assignment from another wrapper shares its object: the old object loses one
      reference, the new one gains one, and nobody else is affected. */
  lemma CopyAssignEffect<W>(w: World<W>, x: W, src: W)
    requires Balanced(w) && x in w.ptr && src in w.ptr && x != src
    ensures var w' := Step(w, CopyAssign(x, src));
            && w'.ptr == w.ptr[x := w.ptr[src]]
            && forall o: Obj ::
                 At(w'.count, o) == At(w.count, o) + One(w.ptr[src] == Some(o)) - One(w.ptr[x] == Some(o))
  {
    StepBalanced(w, CopyAssign(x, src));
    forall o: Obj ensures Pointers(w.ptr[x := w.ptr[src]], o) ==
                          Pointers(w.ptr, o) + One(w.ptr[src] == Some(o)) - One(w.ptr[x] == Some(o))
    {
      PointersUpdate(w.ptr, x, w.ptr[src], o);
    }
  }

  /** Move assignment from another wrapper hands its object over: only the old object loses a
      reference, and the source is left null. */
  lemma MoveAssignEffect<W>(w: World<W>, x: W, src: W)
    requires Balanced(w) && x in w.ptr && src in w.ptr && x != src
    ensures var w' := Step(w, MoveAssign(x, src));
            && w'.ptr == w.ptr[src := None][x := w.ptr[src]]
            && forall o: Obj :: At(w'.count, o) == At(w.count, o) - One(w.ptr[x] == Some(o))
  {
    if w.ptr[x].Some? {
      PointedIsLive(w, x);
    }
  }

  /** Assigning a wrapper to itself, by copy or by move, keeps the balance but leaves the
      wrapper null: its object loses the reference, and is freed if that was the last. */
  lemma SelfAssignLosesObject<W>(w: World<W>, x: W)
    requires Balanced(w) && x in w.ptr
    ensures Step(w, CopyAssign(x, x)) == Step(w, MoveAssign(x, x))
    ensures var w' := Step(w, CopyAssign(x, x));
            && Balanced(w') && w'.ptr == w.ptr[x := None]
            && forall o: Obj :: At(w'.count, o) == At(w.count, o) - One(w.ptr[x] == Some(o))
  {
    StepBalanced(w, CopyAssign(x, x));
    if w.ptr[x].Some? {
      PointedIsLive(w, x);
    }
    assert Step(w, CopyAssign(x, x)).ptr == w.ptr[x := None];
    assert Step(w, MoveAssign(x, x)).ptr == w.ptr[x := None];
  }

  /** One object held by one wrapper that is assigned to itself: the object is freed. */
  lemma SelfAssignExample()
    ensures var w: World<nat> := World(map[7 := 1], map[], map[0 := Some(7)], false);
            && Balanced(w)
            && Step(w, CopyAssign(0, 0)) == World(map[], map[], map[0 := None], false)
  {
    var w: World<nat> := World(map[7 := 1], map[], map[0 := Some(7)], false);
    forall o: Obj ensures At(w.count, o) == At(w.outside, o) + Pointers(w.ptr, o) {
      PointersWithout(w.ptr, 0, o);
      assert w.ptr - {0} == map[];
      NoPointers<nat>(o);
    }
    var none: map<Obj, nat> := map[];
    assert map[7 := 1] - {7} == none;
  }
}
