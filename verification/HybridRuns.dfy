/**
 Ownership over whole runs: a heap of hybrid objects, a ledger of who owes which release,
 and arbitrary sequences of steps by legal owners.
 */
module HybridRuns {
  import opened Wrappers
  import opened HybridObjects

  /** One shared_ptr instance: the object it points to and the control block it counts in. */
  datatype Ptr = Ptr(obj: nat, block: nat)

  /**
   `cRefs` holds an entry for every reference some C holder still has to unref, `shared` an
   entry for every shared_ptr that is alive.
   */
  datatype World = World(objs: seq<Obj>, cRefs: multiset<nat>, shared: multiset<Ptr>)

  const EMPTY := World([], multiset{}, multiset{})

  datatype Event =
    | CreateShared             // create()
    | CreateC                  // createCObject()
    | RefC(obj: nat)
    | UnrefC(obj: nat)
    | GetShared(obj: nat)      // getSharedFromThis()
    | ToShared(obj: nat)       // toSharedPtr()
    | CopyPtr(ptr: Ptr)
    | DropPtr(ptr: Ptr)
    | ToCppList(list: seq<nat>)  // getCppListFromCList()
    | ToCList(list: seq<nat>)    // getCListFromCppList(), either overload

  /** `belle_sip_fatal`, or a step on an object that no longer exists. */
  datatype Failure = FatalError | UseAfterFree

  datatype Result = Done(world: World) | Failed(why: Failure)

  datatype CppList = CppList(world: World, list: seq<Ptr>) | CppListFails(why: Failure)

  datatype CList = CList(world: World, list: seq<nat>) | CListFails(why: Failure)

  // ---- steps --------------------------------------------------------------------------

  /** The object exists and its destructor has not run. */
  predicate Usable(w: World, i: nat) {
    i < |w.objs| && w.objs[i].destroyed == 0
  }

  function Allocate(w: World): World {
    w.(objs := w.objs + [NEW_OBJ], cRefs := w.cRefs + multiset{|w.objs|})
  }

  function TakeRef(w: World, i: nat): Result {
    if !Usable(w, i) then Failed(UseAfterFree)
    else Done(w.(objs := w.objs[i := Ref(w.objs[i])], cRefs := w.cRefs + multiset{i}))
  }

  function DropRef(w: World, i: nat): Result {
    if !Usable(w, i) || w.objs[i].refs == 0 then Failed(UseAfterFree)
    else Done(w.(objs := w.objs[i := Unref(w.objs[i])], cRefs := w.cRefs - multiset{i}))
  }

  function Obtain(w: World, i: nat, withTransfer: bool): CppList {
    if !Usable(w, i) then CppListFails(UseAfterFree)
    else
      match SharedFromThis(w.objs[i], withTransfer)
      case Fatal => CppListFails(FatalError)
      case Obtained(o, block) =>
        var p := Ptr(i, block);
        CppList(World(w.objs[i := o], if withTransfer then w.cRefs - multiset{i} else w.cRefs, w.shared + multiset{p}), [p])
  }

  function Copy(w: World, p: Ptr): Result {
    if p.obj >= |w.objs| || p.block >= |w.objs[p.obj].blocks| || w.objs[p.obj].blocks[p.block] == 0 then Failed(UseAfterFree)
    else Done(w.(objs := w.objs[p.obj := CopyShared(w.objs[p.obj], p.block)], shared := w.shared + multiset{p}))
  }

  function Drop(w: World, p: Ptr): Result {
    if p.obj >= |w.objs| || p.block >= |w.objs[p.obj].blocks| || w.objs[p.obj].blocks[p.block] == 0 then Failed(UseAfterFree)
    else if w.objs[p.obj].blocks[p.block] == 1 && (!Usable(w, p.obj) || w.objs[p.obj].refs == 0) then Failed(UseAfterFree)
    else Done(w.(objs := w.objs[p.obj := DropShared(w.objs[p.obj], p.block)], shared := w.shared - multiset{p}))
  }

  /** `getCppListFromCList`: one shared pointer per element, pushed back in order. */
  function CppFromC(w: World, list: seq<nat>): CppList {
    if list == [] then CppList(w, [])
    else
      match CppFromC(w, list[..|list| - 1])
      case CppListFails(why) => CppListFails(why)
      case CppList(w1, front) =>
        match Obtain(w1, list[|list| - 1], false)
        case CppListFails(why) => CppListFails(why)
        case CppList(w2, last) => CppList(w2, front + last)
  }

  /** `getCListFromCppList`: a ref and an append per element. */
  function CFromCpp(w: World, list: seq<nat>): CList {
    if list == [] then CList(w, [])
    else
      match CFromCpp(w, list[..|list| - 1])
      case CListFails(why) => CListFails(why)
      case CList(w1, front) =>
        match TakeRef(w1, list[|list| - 1])
        case Done(w2) => CList(w2, front + [list[|list| - 1]])
        case Failed(why) => CListFails(why)
  }

  function Forget(l: CppList): Result {
    match l
    case CppList(w, _) => Done(w)
    case CppListFails(why) => Failed(why)
  }

  function Step(w: World, e: Event): Result {
    match e
    case CreateShared => Forget(Obtain(Allocate(w), |w.objs|, true))
    case CreateC => Done(Allocate(w))
    case RefC(i) => TakeRef(w, i)
    case UnrefC(i) => DropRef(w, i)
    case GetShared(i) => Forget(Obtain(w, i, false))
    case ToShared(i) => Forget(Obtain(w, i, true))
    case CopyPtr(p) => Copy(w, p)
    case DropPtr(p) => Drop(w, p)
    case ToCppList(list) => Forget(CppFromC(w, list))
    case ToCList(list) =>
      match CFromCpp(w, list)
      case CList(w1, _) => Done(w1)
      case CListFails(why) => Failed(why)
  }

  // ---- legal owners -------------------------------------------------------------------------

  /** Somebody owns the object, in C or through a shared pointer. */
  ghost predicate Owned(w: World, i: nat) {
    i in w.cRefs || Shared(w, i)
  }

  ghost predicate Shared(w: World, i: nat) {
    exists k: nat :: Ptr(i, k) in w.shared
  }

  /** A step an owner may take: it uses objects that are owned, and gives up only what it holds. */
  ghost predicate Legal(w: World, e: Event) {
    match e
    case CreateShared => true
    case CreateC => true
    case RefC(i) => Owned(w, i)
    case UnrefC(i) => i in w.cRefs
    case GetShared(i) => Owned(w, i)
    case ToShared(i) => i in w.cRefs
    case CopyPtr(p) => p in w.shared
    case DropPtr(p) => p in w.shared
    case ToCppList(list) => AllOwned(w, list)
    case ToCList(list) => AllOwned(w, list)
  }

  // ---- the invariant ------------------------------------------------------------------------

  /** The counts of object i agree with the ledger, and at most one of its control blocks is alive. */
  ghost predicate ObjInv(o: Obj, i: nat, cRefs: multiset<nat>, shared: multiset<Ptr>) {
    && (forall k :: 0 <= k < |o.blocks| ==> o.blocks[k] == shared[Ptr(i, k)])
    && (forall k :: 0 <= k < |o.blocks| && o.blocks[k] > 0 ==> o.self == Some(k))
    && (o.self.Some? ==> o.self.value < |o.blocks|)
    && o.refs == cRefs[i] + (if Locks(o) then 1 else 0)
    && o.destroyed == (if o.refs == 0 then 1 else 0)
  }

  ghost predicate Inv(w: World) {
    && (forall i :: 0 <= i < |w.objs| ==> ObjInv(w.objs[i], i, w.cRefs, w.shared))
    && (forall i :: i in w.cRefs ==> i < |w.objs|)
    && (forall p :: p in w.shared ==> p.obj < |w.objs| && p.block < |w.objs[p.obj].blocks|)
  }

  /** In a world that keeps the invariant, an object is alive exactly while somebody owns it. */
  lemma AliveIffOwned(w: World, i: nat)
    requires Inv(w) && i < |w.objs|
    ensures w.objs[i].destroyed == 0 <==> Owned(w, i)
    ensures Locks(w.objs[i]) <==> Shared(w, i)
    ensures Owned(w, i) ==> Usable(w, i) && w.objs[i].refs > 0
  {
    var o := w.objs[i];
    assert ObjInv(o, i, w.cRefs, w.shared);
    if Locks(o) {
      assert Ptr(i, o.self.value) in w.shared;
    }
    if Shared(w, i) {
      var k: nat :| Ptr(i, k) in w.shared;
      assert o.blocks[k] == w.shared[Ptr(i, k)];
    }
  }

  /** All shared pointers to one object count in the same control block. */
  lemma OneLiveBlock(w: World, p: Ptr, q: Ptr)
    requires Inv(w) && p in w.shared && q in w.shared && p.obj == q.obj
    ensures p == q && w.objs[p.obj].self == Some(p.block)
  {
    var o := w.objs[p.obj];
    assert ObjInv(o, p.obj, w.cRefs, w.shared);
    assert o.blocks[p.block] == w.shared[Ptr(p.obj, p.block)] && o.blocks[q.block] == w.shared[Ptr(q.obj, q.block)];
    assert p == Ptr(p.obj, p.block) && q == Ptr(q.obj, q.block);
  }

  /** Replacing object i, and only entries of the ledger about i. */
  lemma UpdateKeepsInv(w: World, i: nat, o: Obj, cRefs: multiset<nat>, shared: multiset<Ptr>)
    requires Inv(w) && i < |w.objs| && ObjInv(o, i, cRefs, shared) && |o.blocks| >= |w.objs[i].blocks|
    requires forall j :: j != i ==> cRefs[j] == w.cRefs[j]
    requires forall p: Ptr :: p.obj != i ==> shared[p] == w.shared[p]
    requires forall p: Ptr :: p.obj == i && p in shared ==> p.block < |o.blocks|
    ensures Inv(World(w.objs[i := o], cRefs, shared))
  {
    var w' := World(w.objs[i := o], cRefs, shared);
    forall j | 0 <= j < |w'.objs| ensures ObjInv(w'.objs[j], j, cRefs, shared) {
      if j != i {
        assert ObjInv(w.objs[j], j, w.cRefs, w.shared);
        assert forall k: nat :: shared[Ptr(j, k)] == w.shared[Ptr(j, k)];
      }
    }
    forall j | j in cRefs ensures j < |w'.objs| {
      if j != i { assert w.cRefs[j] == cRefs[j]; }
    }
    forall p | p in shared ensures p.obj < |w'.objs| && p.block < |w'.objs[p.obj].blocks| {
      if p.obj != i { assert shared[p] == w.shared[p]; }
    }
  }

  lemma AllocateInv(w: World)
    requires Inv(w)
    ensures Inv(Allocate(w)) && |w.objs| in Allocate(w).cRefs
  {
    var n, w' := |w.objs|, Allocate(w);
    assert n !in w.cRefs;
    forall j | 0 <= j < |w'.objs| ensures ObjInv(w'.objs[j], j, w'.cRefs, w'.shared) {
      if j < n {
        assert ObjInv(w.objs[j], j, w.cRefs, w.shared);
      }
    }
  }

  lemma TakeRefInv(w: World, i: nat)
    requires Inv(w) && Owned(w, i) && i < |w.objs|
    ensures TakeRef(w, i).Done? && Inv(TakeRef(w, i).world)
  {
    AliveIffOwned(w, i);
    assert ObjInv(w.objs[i], i, w.cRefs, w.shared);
    UpdateKeepsInv(w, i, Ref(w.objs[i]), w.cRefs + multiset{i}, w.shared);
  }

  lemma DropRefInv(w: World, i: nat)
    requires Inv(w) && i in w.cRefs
    ensures DropRef(w, i).Done? && Inv(DropRef(w, i).world)
  {
    AliveIffOwned(w, i);
    assert ObjInv(w.objs[i], i, w.cRefs, w.shared);
    UpdateKeepsInv(w, i, Unref(w.objs[i]), w.cRefs - multiset{i}, w.shared);
  }

  /** No live block: a new one is made, and the count pays for it unless a reference is handed over. */
  lemma FreshBlockInv(o: Obj, i: nat, cRefs: multiset<nat>, shared: multiset<Ptr>, withTransfer: bool)
    requires ObjInv(o, i, cRefs, shared) && !Locks(o) && o.refs > 0 && (withTransfer ==> i in cRefs)
    requires forall p: Ptr :: p.obj == i && p in shared ==> p.block < |o.blocks|
    ensures var r := SharedFromThis(o, withTransfer);
      r.Obtained? && r.block == |o.blocks| && |r.obj.blocks| == |o.blocks| + 1
      && ObjInv(r.obj, i, if withTransfer then cRefs - multiset{i} else cRefs, shared + multiset{Ptr(i, r.block)})
  {
    assert forall k :: 0 <= k < |o.blocks| ==> o.blocks[k] == 0;
    assert Ptr(i, |o.blocks|) !in shared;
  }

  /** A live block: one more pointer counts in it. */
  lemma LiveBlockInv(o: Obj, i: nat, cRefs: multiset<nat>, shared: multiset<Ptr>)
    requires ObjInv(o, i, cRefs, shared) && Locks(o)
    ensures var r := SharedFromThis(o, false);
      r.Obtained? && r.block == o.self.value && |r.obj.blocks| == |o.blocks|
      && ObjInv(r.obj, i, cRefs, shared + multiset{Ptr(i, r.block)})
  {
  }

  lemma ObtainFresh(w: World, i: nat, withTransfer: bool)
    requires Inv(w) && Usable(w, i) && w.objs[i].refs > 0 && !Locks(w.objs[i]) && (withTransfer ==> i in w.cRefs)
    ensures var r := Obtain(w, i, withTransfer); r.CppList? && Inv(r.world) && |r.list| == 1 && r.list[0].obj == i
  {
    hide SharedFromThis, Locks;
    var o := w.objs[i];
    assert ObjInv(o, i, w.cRefs, w.shared);
    FreshBlockInv(o, i, w.cRefs, w.shared, withTransfer);
    var r := SharedFromThis(o, withTransfer);
    UpdateKeepsInv(w, i, r.obj, if withTransfer then w.cRefs - multiset{i} else w.cRefs, w.shared + multiset{Ptr(i, r.block)});
  }

  lemma ObtainLive(w: World, i: nat)
    requires Inv(w) && Usable(w, i) && Locks(w.objs[i])
    ensures var r := Obtain(w, i, false); r.CppList? && Inv(r.world) && |r.list| == 1 && r.list[0].obj == i
  {
    hide SharedFromThis;
    var o := w.objs[i];
    assert ObjInv(o, i, w.cRefs, w.shared);
    LiveBlockInv(o, i, w.cRefs, w.shared);
    var r := SharedFromThis(o, false);
    UpdateKeepsInv(w, i, r.obj, w.cRefs, w.shared + multiset{Ptr(i, r.block)});
  }

  /** Obtaining a pointer: fatal exactly for a transfer while shared pointers are alive. */
  lemma ObtainInv(w: World, i: nat, withTransfer: bool)
    requires Inv(w) && i < |w.objs| && Owned(w, i) && (withTransfer ==> i in w.cRefs)
    ensures var r := Obtain(w, i, withTransfer);
      if withTransfer && Shared(w, i) then r == CppListFails(FatalError)
      else r.CppList? && Inv(r.world) && |r.list| == 1 && r.list[0].obj == i
  {
    hide Inv, Owned, Shared;
    AliveIffOwned(w, i);
    if !Locks(w.objs[i]) {
      ObtainFresh(w, i, withTransfer);
    } else if !withTransfer {
      ObtainLive(w, i);
    }
  }

  lemma CopyInv(w: World, p: Ptr)
    requires Inv(w) && p in w.shared
    ensures Copy(w, p).Done? && Inv(Copy(w, p).world)
  {
    var o := w.objs[p.obj];
    assert ObjInv(o, p.obj, w.cRefs, w.shared);
    assert p == Ptr(p.obj, p.block);
    assert ObjInv(CopyShared(o, p.block), p.obj, w.cRefs, w.shared + multiset{p});
    UpdateKeepsInv(w, p.obj, CopyShared(o, p.block), w.cRefs, w.shared + multiset{p});
  }

  lemma DropInv(w: World, p: Ptr)
    requires Inv(w) && p in w.shared
    ensures Drop(w, p).Done? && Inv(Drop(w, p).world)
  {
    AliveIffOwned(w, p.obj);
    var o := w.objs[p.obj];
    assert ObjInv(o, p.obj, w.cRefs, w.shared);
    assert p == Ptr(p.obj, p.block) && Shared(w, p.obj);
    assert o.blocks[p.block] > 0 && o.self == Some(p.block);
    assert ObjInv(DropShared(o, p.block), p.obj, w.cRefs, w.shared - multiset{p});
    UpdateKeepsInv(w, p.obj, DropShared(o, p.block), w.cRefs, w.shared - multiset{p});
  }

  // ---- list conversions ---------------------------------------------------------------------

  /** Every element is an object somebody owns. */
  ghost predicate AllOwned(w: World, list: seq<nat>) {
    forall i :: i in list ==> i < |w.objs| && Owned(w, i)
  }

  lemma AllOwnedFront(w: World, list: seq<nat>)
    requires list != [] && AllOwned(w, list)
    ensures AllOwned(w, list[..|list| - 1]) && list[|list| - 1] < |w.objs| && Owned(w, list[|list| - 1])
  {
    hide Owned;
    var front := list[..|list| - 1];
    assert list[|list| - 1] in list;
    assert forall i :: i in front ==> i in list;
  }

  /** What converting a C list must have done: see `CppListConserves`. */
  ghost predicate CppConverted(w: World, list: seq<nat>, w': World, ptrs: seq<Ptr>) {
    && |ptrs| == |list| && (forall n :: 0 <= n < |list| ==> ptrs[n].obj == list[n])
    && w'.cRefs == w.cRefs && w'.shared == w.shared + multiset(ptrs)
    && |w'.objs| == |w.objs|
    && forall i :: 0 <= i < |w.objs| ==>
         w'.objs[i].refs == w.objs[i].refs + (if i in list && !Locks(w.objs[i]) then 1 else 0)
         && Locks(w'.objs[i]) == (i in list || Locks(w.objs[i]))
  }

  lemma CppConvertedStep(w: World, front: seq<nat>, w1: World, ptrs: seq<Ptr>, i: nat)
    requires CppConverted(w, front, w1, ptrs) && i < |w.objs| && Obtain(w1, i, false).CppList?
    requires |Obtain(w1, i, false).list| == 1 && Obtain(w1, i, false).list[0].obj == i
    ensures CppConverted(w, front + [i], Obtain(w1, i, false).world, ptrs + Obtain(w1, i, false).list)
  {
    ObtainEffect(w1, i);
    hide Obtain, Locks;
    assert multiset(ptrs + Obtain(w1, i, false).list) == multiset(ptrs) + multiset(Obtain(w1, i, false).list);
  }

  /**
   C to C++: a pointer per element, in order, all counted in the ledger; an object gains one
   reference if it is in the list and had no live shared pointer, however often it occurs,
   and none otherwise.
   */
  lemma {:induction false} CppListConserves(w: World, list: seq<nat>)
    requires Inv(w) && AllOwned(w, list)
    ensures var r := CppFromC(w, list);
      r.CppList? && Inv(r.world) && CppConverted(w, list, r.world, r.list)
    decreases |list|
  {
    hide Inv, Owned, AllOwned, Obtain;
    if list != [] {
      var front, i := list[..|list| - 1], list[|list| - 1];
      AllOwnedFront(w, list);
      CppListConserves(w, front);
      var before := CppFromC(w, front);
      OwnedGrows(w, before.world, i);
      ObtainInv(before.world, i, false);
      CppConvertedStep(w, front, before.world, before.list, i);
      assert list == front + [i];
    } else {
      assert multiset(CppFromC(w, list).list) == multiset{};
    }
  }

  lemma OwnedGrows(w: World, w': World, i: nat)
    requires w'.cRefs >= w.cRefs && w'.shared >= w.shared && Owned(w, i)
    ensures Owned(w', i)
  {
    if Shared(w, i) {
      var k: nat :| Ptr(i, k) in w.shared;
      assert Ptr(i, k) in w'.shared;
    }
  }

  lemma ObtainEffect(w: World, i: nat)
    requires i < |w.objs| && Obtain(w, i, false).CppList?
    ensures var r := Obtain(w, i, false);
      && r.world.cRefs == w.cRefs && r.world.shared == w.shared + multiset(r.list) && |r.world.objs| == |w.objs|
      && (forall j :: 0 <= j < |w.objs| && j != i ==> r.world.objs[j] == w.objs[j])
      && r.world.objs[i].refs == w.objs[i].refs + (if Locks(w.objs[i]) then 0 else 1)
      && Locks(r.world.objs[i])
  {
  }

  /** What converting to a C list must have done: see `CListConserves`. */
  ghost predicate CConverted(w: World, list: seq<nat>, w': World) {
    && w'.cRefs == w.cRefs + multiset(list) && w'.shared == w.shared && |w'.objs| == |w.objs|
    && forall i :: 0 <= i < |w.objs| ==> w'.objs[i] == w.objs[i].(refs := w.objs[i].refs + multiset(list)[i])
  }

  lemma CConvertedStep(w: World, front: seq<nat>, w1: World, i: nat)
    requires CConverted(w, front, w1) && i < |w.objs| && TakeRef(w1, i).Done?
    ensures CConverted(w, front + [i], TakeRef(w1, i).world)
  {
    assert multiset(front + [i]) == multiset(front) + multiset{i};
  }

  lemma ConvertedStillOwned(w: World, list: seq<nat>, w': World, i: nat)
    requires CConverted(w, list, w') && i < |w.objs| && Owned(w, i)
    ensures i < |w'.objs| && Owned(w', i)
  {
    OwnedGrows(w, w', i);
  }

  lemma CConvertedNothing(w: World)
    ensures CConverted(w, [], w)
  {
  }

  /** C++ to C: the same objects in the same order, one reference more per occurrence. */
  lemma {:induction false} CListConserves(w: World, list: seq<nat>)
    requires Inv(w) && AllOwned(w, list)
    ensures var r := CFromCpp(w, list);
      r.CList? && Inv(r.world) && r.list == list && CConverted(w, list, r.world)
    decreases |list|
  {
    hide Inv, Owned, AllOwned, TakeRef, CConverted;
    if list != [] {
      var front, i := list[..|list| - 1], list[|list| - 1];
      AllOwnedFront(w, list);
      CListConserves(w, front);
      var before := CFromCpp(w, front).world;
      ConvertedStillOwned(w, front, before, i);
      TakeRefInv(before, i);
      CConvertedStep(w, front, before, i);
      assert list == front + [i];
    } else {
      CConvertedNothing(w);
    }
  }

  function Targets(ptrs: seq<Ptr>): seq<nat> {
    seq(|ptrs|, n requires 0 <= n < |ptrs| => ptrs[n].obj)
  }

  /** Converting a C list to C++ and the result back to C yields the same objects in the same order. */
  lemma ListRoundTrip(w: World, list: seq<nat>)
    requires Inv(w) && AllOwned(w, list)
    ensures var cpp := CppFromC(w, list);
      && cpp.CppList? && var c := CFromCpp(cpp.world, Targets(cpp.list));
         c.CList? && c.list == list && Inv(c.world) && c.world.cRefs == w.cRefs + multiset(list)
  {
    hide Inv, Owned;
    CppListConserves(w, list);
    var cpp := CppFromC(w, list);
    assert Targets(cpp.list) == list;
    forall i | i in list ensures i < |cpp.world.objs| && Owned(cpp.world, i) {
      OwnedGrows(w, cpp.world, i);
    }
    CListConserves(cpp.world, list);
  }

  // ---- every step, every run --------------------------------------------------------------------

  lemma OwnedExists(w: World, i: nat)
    requires Inv(w) && Owned(w, i)
    ensures i < |w.objs|
  {
  }

  /**
   A legal step keeps the invariant and never touches a destroyed object.  The one way it can
   end in the library's fatal error is handing an object to a shared pointer while others
   are alive.
   */
  lemma StepSafe(w: World, e: Event)
    requires Inv(w) && Legal(w, e)
    ensures if e.ToShared? && Shared(w, e.obj) then Step(w, e) == Failed(FatalError)
            else Step(w, e).Done? && Inv(Step(w, e).world)
  {
    hide Inv, Owned, AllOwned, Shared, Obtain, Copy, Drop, TakeRef, DropRef, CppConverted, CConverted;
    match e {
      case CreateShared => CreateSharedInv(w);
      case CreateC => AllocateInv(w);
      case RefC(i) => OwnedExists(w, i); TakeRefInv(w, i);
      case UnrefC(i) => DropRefInv(w, i);
      case GetShared(i) => OwnedExists(w, i); ObtainInv(w, i, false);
      case ToShared(i) => HeldIsOwned(w, i); ObtainInv(w, i, true);
      case CopyPtr(p) => CopyInv(w, p);
      case DropPtr(p) => DropInv(w, p);
      case ToCppList(list) => CppListConserves(w, list);
      case ToCList(list) => CListConserves(w, list);
    }
  }

  lemma HeldIsOwned(w: World, i: nat)
    requires Inv(w) && i in w.cRefs
    ensures i < |w.objs| && Owned(w, i)
  {
  }

  lemma CreateSharedInv(w: World)
    requires Inv(w)
    ensures var r := Obtain(Allocate(w), |w.objs|, true); r.CppList? && Inv(r.world)
  {
    AllocateInv(w);
    HeldIsOwned(Allocate(w), |w.objs|);
    assert !Locks(NEW_OBJ);
    AliveIffOwned(Allocate(w), |w.objs|);
    ObtainInv(Allocate(w), |w.objs|, true);
  }

  /** One more pointer to i, in some control block of it. */
  ghost predicate PointerAdded(before: multiset<Ptr>, after: multiset<Ptr>, i: nat) {
    exists k: nat :: after == before + multiset{Ptr(i, k)}
  }

  /** What each step does to the owners: who gains a release to make, and who has made one. */
  ghost predicate Accounts(w: World, e: Event, w': World) {
    match e
    case CreateShared =>
      |w'.objs| == |w.objs| + 1 && w'.cRefs == w.cRefs && w'.shared == w.shared + multiset{Ptr(|w.objs|, 0)}
    case CreateC => |w'.objs| == |w.objs| + 1 && w'.cRefs == w.cRefs + multiset{|w.objs|} && w'.shared == w.shared
    case RefC(i) => |w'.objs| == |w.objs| && w'.cRefs == w.cRefs + multiset{i} && w'.shared == w.shared
    case UnrefC(i) => |w'.objs| == |w.objs| && w'.cRefs == w.cRefs - multiset{i} && w'.shared == w.shared
    case GetShared(i) => |w'.objs| == |w.objs| && w'.cRefs == w.cRefs && PointerAdded(w.shared, w'.shared, i)
    case ToShared(i) => |w'.objs| == |w.objs| && w'.cRefs == w.cRefs - multiset{i} && PointerAdded(w.shared, w'.shared, i)
    case CopyPtr(p) => |w'.objs| == |w.objs| && w'.cRefs == w.cRefs && w'.shared == w.shared + multiset{p}
    case DropPtr(p) => |w'.objs| == |w.objs| && w'.cRefs == w.cRefs && w'.shared == w.shared - multiset{p}
    case ToCppList(list) => exists ptrs :: CppConverted(w, list, w', ptrs)
    case ToCList(list) => CConverted(w, list, w')
  }

  /**
   A step changes the owners exactly as its event says.  With `StepSafe`, which ties every
   count to the owners, this decides the counts of every object after every step.
   */
  lemma StepAccounts(w: World, e: Event)
    requires Inv(w) && Legal(w, e) && Step(w, e).Done?
    ensures Accounts(w, e, Step(w, e).world)
  {
    hide Inv, Owned, AllOwned, Shared, CppConverted, CConverted, PointerAdded, Obtain;
    match e {
      case CreateShared => ObtainNew(w);
      case GetShared(i) => ObtainAdds(w, i, false);
      case ToShared(i) => ObtainAdds(w, i, true);
      case ToCppList(list) => CppListConserves(w, list);
      case ToCList(list) => CListConserves(w, list);
      case _ =>
    }
  }

  lemma ObtainAdds(w: World, i: nat, withTransfer: bool)
    requires Obtain(w, i, withTransfer).CppList?
    ensures var w' := Obtain(w, i, withTransfer).world;
      && |w'.objs| == |w.objs| && w'.cRefs == (if withTransfer then w.cRefs - multiset{i} else w.cRefs)
      && PointerAdded(w.shared, w'.shared, i)
  {
    var block := Obtain(w, i, withTransfer).list[0].block;
    assert Obtain(w, i, withTransfer).world.shared == w.shared + multiset{Ptr(i, block)};
  }

  lemma ObtainNew(w: World)
    ensures var r := Obtain(Allocate(w), |w.objs|, true);
      && r.CppList? && |r.world.objs| == |w.objs| + 1 && r.world.cRefs == w.cRefs
      && r.world.shared == w.shared + multiset{Ptr(|w.objs|, 0)}
  {
    assert (w.cRefs + multiset{|w.objs|}) - multiset{|w.objs|} == w.cRefs;
  }

  function After(es: seq<Event>): Result {
    if es == [] then Done(EMPTY)
    else
      match After(es[..|es| - 1])
      case Done(w) => Step(w, es[|es| - 1])
      case fail => fail
  }

  /** Every step of the run was taken by a legal owner. */
  ghost predicate LegalRun(es: seq<Event>) {
    forall n :: 0 <= n < |es| ==> LegalAt(es, n)
  }

  ghost predicate LegalAt(es: seq<Event>, n: nat)
    requires n < |es|
  {
    After(es[..n]).Done? ==> Legal(After(es[..n]).world, es[n])
  }

  lemma LegalFront(es: seq<Event>)
    requires es != [] && LegalRun(es)
    ensures LegalRun(es[..|es| - 1])
  {
    var front := es[..|es| - 1];
    forall n | 0 <= n < |front| ensures LegalAt(front, n) {
      assert LegalAt(es, n) && front[..n] == es[..n];
    }
  }

  /** Conservation over every run: no run of legal owners reaches a destroyed object. */
  lemma {:induction false} RunSafe(es: seq<Event>)
    requires LegalRun(es)
    ensures After(es) != Failed(UseAfterFree)
    ensures After(es).Done? ==> Inv(After(es).world)
    decreases |es|
  {
    hide Inv, Step, Legal;
    if es == [] {
      EmptyInv();
    } else {
      LegalFront(es);
      RunSafe(es[..|es| - 1]);
      if After(es[..|es| - 1]).Done? {
        assert LegalAt(es, |es| - 1);
        StepSafe(After(es[..|es| - 1]).world, es[|es| - 1]);
      }
    }
  }

  lemma EmptyInv()
    ensures Inv(EMPTY)
  {
  }

  /** What time does to an object: a destructor run is never undone, a dead control block never revived. */
  predicate Aged(o: Obj, o': Obj) {
    && o.destroyed <= o'.destroyed && |o.blocks| <= |o'.blocks|
    && forall k :: 0 <= k < |o.blocks| && o.blocks[k] == 0 ==> o'.blocks[k] == 0
  }

  predicate Older(w: World, w': World) {
    |w.objs| <= |w'.objs| && forall i :: 0 <= i < |w.objs| ==> Aged(w.objs[i], w'.objs[i])
  }

  lemma ObtainMonotone(w: World, i: nat, withTransfer: bool)
    ensures Obtain(w, i, withTransfer).CppList? ==> Older(w, Obtain(w, i, withTransfer).world)
  {
  }

  lemma {:induction false} CppListMonotone(w: World, list: seq<nat>)
    ensures CppFromC(w, list).CppList? ==> Older(w, CppFromC(w, list).world)
    decreases |list|
  {
    hide Obtain;
    if list != [] {
      CppListMonotone(w, list[..|list| - 1]);
      var front := CppFromC(w, list[..|list| - 1]);
      if front.CppList? { ObtainMonotone(front.world, list[|list| - 1], false); }
    }
  }

  lemma {:induction false} CListMonotone(w: World, list: seq<nat>)
    ensures CFromCpp(w, list).CList? ==> Older(w, CFromCpp(w, list).world)
    decreases |list|
  {
    if list != [] { CListMonotone(w, list[..|list| - 1]); }
  }

  lemma ObtainOnDestroyed(w: World, i: nat, withTransfer: bool)
    requires i < |w.objs| && w.objs[i].destroyed > 0
    ensures Obtain(w, i, withTransfer) == CppListFails(UseAfterFree)
  {
  }

  /** Without a transfer the only failure is a use of something that is gone. */
  lemma {:induction false} CppListTouches(w: World, list: seq<nat>, i: nat)
    requires i < |w.objs| && w.objs[i].destroyed > 0
    ensures CppFromC(w, list).CppListFails? ==> CppFromC(w, list).why == UseAfterFree
    ensures i in list ==> CppFromC(w, list).CppListFails?
    decreases |list|
  {
    if list != [] {
      var front, last := list[..|list| - 1], list[|list| - 1];
      assert list == front + [last];
      CppListTouches(w, front, i);
      CppListMonotone(w, front);
      if CppFromC(w, front).CppList? && last == i {
        var before := CppFromC(w, front).world;
        assert Aged(w.objs[i], before.objs[i]);
        ObtainOnDestroyed(before, i, false);
      }
    }
  }

  lemma {:induction false} CListTouches(w: World, list: seq<nat>, i: nat)
    requires i < |w.objs| && w.objs[i].destroyed > 0
    ensures CFromCpp(w, list).CListFails? ==> CFromCpp(w, list).why == UseAfterFree
    ensures i in list ==> CFromCpp(w, list).CListFails?
    decreases |list|
  {
    if list != [] {
      var front, last := list[..|list| - 1], list[|list| - 1];
      assert list == front + [last];
      CListTouches(w, front, i);
      CListMonotone(w, front);
      if CFromCpp(w, front).CList? && last == i {
        assert Aged(w.objs[i], CFromCpp(w, front).world.objs[i]);
      }
    }
  }

  /** Any step that touches a destroyed object, in any world, is a use after free: nothing slips through. */
  lemma DestroyedIsUntouchable(w: World, i: nat, list: seq<nat>, k: nat)
    requires i < |w.objs| && w.objs[i].destroyed > 0
    ensures Step(w, RefC(i)) == Step(w, UnrefC(i)) == Failed(UseAfterFree)
    ensures Step(w, GetShared(i)) == Step(w, ToShared(i)) == Failed(UseAfterFree)
    ensures i in list ==> Step(w, ToCppList(list)) == Step(w, ToCList(list)) == Failed(UseAfterFree)
    ensures k < |w.objs[i].blocks| && w.objs[i].blocks[k] <= 1 ==> Step(w, DropPtr(Ptr(i, k))) == Failed(UseAfterFree)
    ensures k < |w.objs[i].blocks| && w.objs[i].blocks[k] == 0 ==> Step(w, CopyPtr(Ptr(i, k))) == Failed(UseAfterFree)
  {
    hide Obtain, CppFromC, CFromCpp;
    ObtainOnDestroyed(w, i, false);
    ObtainOnDestroyed(w, i, true);
    CppListTouches(w, list, i);
    CListTouches(w, list, i);
  }

  /** Objects are never removed, and all of them age. */
  lemma StepMonotone(w: World, e: Event)
    requires Step(w, e).Done?
    ensures Older(w, Step(w, e).world)
  {
    hide Obtain;
    match e {
      case CreateShared =>
        ObtainMonotone(Allocate(w), |w.objs|, true);
        assert Older(w, Allocate(w));
      case GetShared(i) => ObtainMonotone(w, i, false);
      case ToShared(i) => ObtainMonotone(w, i, true);
      case ToCppList(list) => CppListMonotone(w, list);
      case ToCList(list) => CListMonotone(w, list);
      case _ =>
    }
  }

  lemma {:induction false} RunMonotone(es: seq<Event>, n: nat)
    requires n <= |es| && After(es).Done?
    ensures After(es[..n]).Done? && Older(After(es[..n]).world, After(es).world)
    decreases |es|
  {
    hide Step;
    if n == |es| {
      assert es[..n] == es;
    } else {
      var front := es[..|es| - 1];
      assert front[..n] == es[..n];
      RunMonotone(front, n);
      StepMonotone(After(front).world, es[|es| - 1]);
    }
  }

  /**
   Destruction over every run: at any point the destructor of an object has run once if
   nobody owns it and not at all otherwise, and an object that once lost its last owner
   never has one again.  So it is destroyed exactly once, at the step that removes its last
   owner of either kind.
   */
  lemma DestroyedOnce(es: seq<Event>, n: nat, i: nat)
    requires LegalRun(es) && n <= |es| && After(es).Done?
    requires After(es[..n]).Done? && i < |After(es[..n]).world.objs|
    ensures i < |After(es).world.objs|
    ensures After(es).world.objs[i].destroyed == if Owned(After(es).world, i) then 0 else 1
    ensures !Owned(After(es[..n]).world, i) ==> !Owned(After(es).world, i)
  {
    hide Step, Legal, Owned;
    RunSafe(es);
    RunMonotone(es, n);
    LegalPrefix(es, n);
    RunSafe(es[..n]);
    AliveIffOwned(After(es).world, i);
    AliveIffOwned(After(es[..n]).world, i);
  }

  lemma LegalPrefix(es: seq<Event>, n: nat)
    requires LegalRun(es) && n <= |es|
    ensures LegalRun(es[..n])
  {
    forall m | 0 <= m < n ensures LegalAt(es[..n], m) {
      assert LegalAt(es, m) && es[..n][..m] == es[..m];
    }
  }

  /** No leak: when every C holder has released and no shared pointer is left, every object ever made is destroyed. */
  lemma NoLeak(es: seq<Event>, i: nat)
    requires LegalRun(es) && After(es).Done? && i < |After(es).world.objs|
    requires After(es).world.cRefs == multiset{} && After(es).world.shared == multiset{}
    ensures After(es).world.objs[i].destroyed == 1
  {
    assert es[..|es|] == es;
    DestroyedOnce(es, |es|, i);
  }

  /**
   The weak pointer may expire while C references remain: the next pointer then counts in a
   new control block, paid for with one reference.
   */
  lemma SecondBlock(w: World, i: nat)
    requires Inv(w) && i in w.cRefs && !Shared(w, i)
    ensures var r := Obtain(w, i, false);
      && r.CppList? && r.list == [Ptr(i, |w.objs[i].blocks|)]
      && r.world.objs[i].refs == w.objs[i].refs + 1
      && forall k :: 0 <= k < |w.objs[i].blocks| ==> Ptr(i, k) !in r.world.shared
  {
    AliveIffOwned(w, i);
    assert ObjInv(w.objs[i], i, w.cRefs, w.shared);
  }

  /**
   Once an object has no shared pointer, the control blocks it had by then stay dead for the
   rest of the run: every pointer there ever is to it again counts in a block made later.
   */
  lemma OldBlocksStayDead(es: seq<Event>, n: nat, i: nat, k: nat)
    requires LegalRun(es) && n <= |es| && After(es).Done?
    requires After(es[..n]).Done? && i < |After(es[..n]).world.objs|
    requires !Shared(After(es[..n]).world, i) && Ptr(i, k) in After(es).world.shared
    ensures k >= |After(es[..n]).world.objs[i].blocks|
  {
    hide Step, Legal;
    RunSafe(es);
    RunMonotone(es, n);
    LegalPrefix(es, n);
    RunSafe(es[..n]);
    var o, o' := After(es[..n]).world.objs[i], After(es).world.objs[i];
    NoPointerNoUse(After(es[..n]).world, i);
    assert ObjInv(o', i, After(es).world.cRefs, After(es).world.shared);
    assert Aged(o, o');
  }

  lemma NoPointerNoUse(w: World, i: nat)
    requires Inv(w) && i < |w.objs| && !Shared(w, i)
    ensures forall k :: 0 <= k < |w.objs[i].blocks| ==> w.objs[i].blocks[k] == 0
  {
    assert ObjInv(w.objs[i], i, w.cRefs, w.shared);
  }
}
