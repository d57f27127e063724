/**
 The same protocol on mutable objects: hybrid objects and control blocks as classes, the
 methods of ios/belle-sip.framework/Headers/object++.hh with their loops, each proved to
 make the change `HybridObjects` describes.
 */
module HybridHeap {
  import opened Wrappers
  import opened HybridObjects

  /** What the instances of one shared_ptr family count in; its deleter calls `constUnref`. */
  class ControlBlock {
    const target: HybridObject
    var useCount: nat

    constructor (target: HybridObject)
      ensures this.target == target && useCount == 1
    {
      this.target := target;
      useCount := 1;
    }

    /** Copying a shared_ptr. */
    method Copy(ghost k: nat)
      requires target.Valid() && k < |target.blocks| && target.blocks[k] == this && useCount > 0
      modifies this
      ensures target.Valid() && target.Model() == CopyShared(old(target.Model()), k)
    {
      ghost var uses := UseCounts(target.blocks);
      useCount := useCount + 1;
      target.UsesAfter(k, uses);
    }

    /** Destroying a shared_ptr; the last one gives the block's reference back. */
    method Release(ghost k: nat)
      requires target.Valid() && k < |target.blocks| && target.blocks[k] == this && useCount > 0
      requires useCount == 1 ==> target.refCount > 0 && target.destroyCount == 0
      modifies this, target`refCount, target`destroyCount
      ensures target.Valid() && target.Model() == DropShared(old(target.Model()), k)
    {
      ghost var uses := UseCounts(target.blocks);
      useCount := useCount - 1;
      target.UsesAfter(k, uses);
      if useCount == 0 {
        target.Unref();
      }
    }
  }

  class HybridObject {
    var refCount: nat
    var destroyCount: nat
    var mSelf: ControlBlock?
    // every control block ever made for this object, oldest first
    ghost var blocks: seq<ControlBlock>

    /** The blocks are this object's own, all different, and the weak pointer refers to the newest. */
    ghost predicate Valid()
      reads this, blocks
    {
      && (forall i, j :: 0 <= i < j < |blocks| ==> blocks[i] != blocks[j])
      && (forall b :: b in blocks ==> b.target == this)
      && mSelf == (if blocks == [] then null else blocks[|blocks| - 1])
    }

    ghost function Model(): Obj
      reads this, blocks
    {
      Obj(refCount, destroyCount, UseCounts(blocks), if blocks == [] then None else Some(|blocks| - 1))
    }

    /** Only the use count of block k differs from the recorded ones. */
    lemma UsesAfter(k: nat, uses: seq<nat>)
      requires k < |blocks| == |uses| && forall i :: 0 <= i < |blocks| && i != k ==> blocks[i].useCount == uses[i]
      ensures UseCounts(blocks) == uses[k := blocks[k].useCount]
    {
    }

    /** The constructor: one reference, owned by the caller of `new`. */
    constructor ()
      ensures Valid() && Model() == NEW_OBJ && blocks == []
    {
      refCount, destroyCount := 1, 0;
      mSelf := null;
      blocks := [];
    }

    method AddRef()
      requires destroyCount == 0
      modifies this`refCount
      ensures refCount == old(refCount) + 1
    {
      refCount := refCount + 1;
    }

    method Unref()
      requires refCount > 0 && destroyCount == 0
      modifies this`refCount, this`destroyCount
      ensures refCount == old(refCount) - 1
      ensures destroyCount == if refCount == 0 then 1 else 0
    {
      refCount := refCount - 1;
      if refCount == 0 {
        destroyCount := destroyCount + 1;
      }
    }

    /** `sharedFromThis`; null stands for the library's fatal error. */
    method SharedFrom(withTransfer: bool) returns (sp: ControlBlock?)
      requires Valid() && destroyCount == 0
      modifies this, if mSelf == null then {} else {mSelf}
      ensures Valid() && destroyCount == 0 && (mSelf == old(mSelf) || fresh(mSelf))
      // a pointer counts in the block the weak pointer refers to, which a live block stays
      ensures sp != null ==> sp == mSelf
      ensures old(mSelf != null && mSelf.useCount > 0) ==> mSelf == old(mSelf)
      ensures match SharedFromThis(old(Model()), withTransfer)
        case Fatal => sp == null && Model() == old(Model())
        case Obtained(o, k) =>
          sp != null && Model() == o && k < |blocks| && blocks[k] == sp && sp.useCount > 0 && sp.target == this
      ensures old(blocks) <= blocks
    {
      ghost var uses := UseCounts(blocks);
      sp := mSelf;
      // lock(): nothing if the weak pointer is empty or expired
      if sp == null || sp.useCount == 0 {
        sp := new ControlBlock(this);
        mSelf := sp;
        blocks := blocks + [sp];
        UsesAfter(|uses|, uses + [0]);
        if !withTransfer {
          AddRef();
        }
      } else if withTransfer {
        sp := null;
      } else {
        sp.useCount := sp.useCount + 1;
        UsesAfter(|blocks| - 1, uses);
      }
    }
  }

  ghost function UseCounts(bs: seq<ControlBlock>): (s: seq<nat>)
    reads bs
  {
    seq(|bs|, i requires 0 <= i < |bs| reads bs => bs[i].useCount)
  }

  /** `create()`: the new object's only reference goes to the shared pointer. */
  method Create() returns (sp: ControlBlock)
    ensures fresh(sp) && fresh(sp.target) && sp.target.Valid() && sp.target.blocks == [sp]
    ensures sp.target.Model() == Obj(1, 0, [1], Some(0))
  {
    var made := new HybridObject();
    var shared := made.SharedFrom(true);
    sp := shared;
  }

  /** The block behind one object's weak pointer is no block of another object. */
  lemma OnlyItsOwn(o: HybridObject, others: seq<HybridObject>)
    requires o.Valid() && forall p :: p in others ==> p.Valid()
    ensures forall p :: p in others && p != o && o.mSelf != null ==> o.mSelf !in p.blocks
  {
  }

  lemma NeverFatal(o: Obj)
    ensures SharedFromThis(o, false).Obtained?
  {
  }

  /** Each object has been asked for a pointer as often as `asked` says, since it had the value `start`. */
  ghost predicate Asked(others: seq<HybridObject>, start: map<HybridObject, Obj>, asked: multiset<HybridObject>)
    reads *
  {
    forall p :: p in others ==>
      p.Valid() && p.destroyCount == 0 && p in start && p.Model() == GetSharedTimes(start[p], asked[p])
  }

  /** `toCpp(ptr)->getSharedFromThis()`, among objects of which only this one changes. */
  method GetSharedOf(o: HybridObject, ghost others: seq<HybridObject>, ghost start: map<HybridObject, Obj>,
                     ghost asked: multiset<HybridObject>)
    returns (sp: ControlBlock)
    requires o in others && Asked(others, start, asked)
    modifies o, if o.mSelf == null then {} else {o.mSelf}
    ensures sp.target == o && Asked(others, start, asked + multiset{o})
    ensures sp == o.mSelf && sp.useCount > 0
    ensures old(o.mSelf != null && o.mSelf.useCount > 0) ==> o.mSelf == old(o.mSelf)
    ensures o.mSelf == old(o.mSelf) || fresh(o.mSelf)
  {
    hide SharedFromThis, HybridObject.Valid, HybridObject.Model;
    OnlyItsOwn(o, others);
    NeverFatal(o.Model());
    var obtained := o.SharedFrom(false);
    sp := obtained;
    assert o.Model() == GetSharedTimes(start[o], (asked + multiset{o})[o]);
  }

  /** The pointer's block is the object's own, the one its weak pointer refers to, and is in use. */
  ghost predicate PointsTo(sp: ControlBlock, o: HybridObject)
    reads sp, o
  {
    sp.target == o && sp == o.mSelf && sp.useCount > 0
  }

  /** The weak pointer refers to a block in use. */
  ghost predicate Alive(o: HybridObject)
    reads o, if o.mSelf == null then {} else {o.mSelf}
  {
    o.mSelf != null && o.mSelf.useCount > 0
  }

  /** The loop of `getCppListFromCList`. */
  method PushBackAll(cList: seq<HybridObject>, ghost start: map<HybridObject, Obj>) returns (result: seq<ControlBlock>)
    requires Asked(cList, start, multiset{})
    modifies cList, set o | o in cList && o.mSelf != null :: o.mSelf
    ensures |result| == |cList| && forall i :: 0 <= i < |cList| ==> PointsTo(result[i], cList[i])
    ensures forall o :: o in cList && old(Alive(o)) ==> o.mSelf == old(o.mSelf)
    ensures Asked(cList, start, multiset(cList))
  {
    hide Asked;
    result := [];
    assert cList[..0] == [];
    for i := 0 to |cList|
      invariant |result| == i && forall n :: 0 <= n < i ==> PointsTo(result[n], cList[n])
      invariant Asked(cList, start, multiset(cList[..i]))
      invariant forall o :: o in cList && old(Alive(o)) ==> Alive(o) && o.mSelf == old(o.mSelf)
      invariant forall o :: o in cList ==> o.mSelf == old(o.mSelf) || fresh(o.mSelf)
    {
      assert cList[..i + 1] == cList[..i] + [cList[i]];
      var sp := GetSharedOf(cList[i], cList, start, multiset(cList[..i]));
      result := result + [sp];
    }
    assert cList[..|cList|] == cList;
  }

  /** `getCppListFromCList`. */
  method CppListFromCList(cList: seq<HybridObject>) returns (result: seq<ControlBlock>)
    requires forall o :: o in cList ==> o.Valid() && o.destroyCount == 0
    modifies cList, set o | o in cList && o.mSelf != null :: o.mSelf
    ensures |result| == |cList| && forall i :: 0 <= i < |cList| ==> PointsTo(result[i], cList[i])
    ensures forall o :: o in cList && old(Alive(o)) ==> o.mSelf == old(o.mSelf)
    ensures forall o :: o in cList ==> o.Valid() && o.Model() == GetSharedTimes(old(o.Model()), multiset(cList)[o])
  {
    hide HybridObject.Valid, HybridObject.Model, Asked;
    ghost var start := map o | o in cList :: o.Model();
    AskedNothing(cList, start);
    result := PushBackAll(cList, start);
    AskedMeans(cList, start, multiset(cList));
  }

  lemma AskedNothing(others: seq<HybridObject>, start: map<HybridObject, Obj>)
    requires forall p :: p in others ==> p.Valid() && p.destroyCount == 0 && p in start && p.Model() == start[p]
    ensures Asked(others, start, multiset{})
  {
  }

  lemma AskedMeans(others: seq<HybridObject>, start: map<HybridObject, Obj>, asked: multiset<HybridObject>)
    requires Asked(others, start, asked)
    ensures forall p :: p in others ==> p.Valid() && p in start && p.Model() == GetSharedTimes(start[p], asked[p])
  {
  }

  /** `getCListFromCppList`. */
  method CListFromCppList(cppList: seq<ControlBlock>) returns (result: seq<HybridObject>)
    requires forall b :: b in cppList ==> b.target.destroyCount == 0
    modifies set b | b in cppList :: b.target
    ensures |result| == |cppList| && forall i :: 0 <= i < |cppList| ==> result[i] == cppList[i].target
    ensures forall o :: o in result ==> o.refCount == old(o.refCount) + multiset(result)[o]
    ensures forall o :: o in result ==> o.destroyCount == 0 && o.mSelf == old(o.mSelf) && o.blocks == old(o.blocks)
  {
    result := [];
    for i := 0 to |cppList|
      invariant |result| == i && forall n :: 0 <= n < i ==> result[n] == cppList[n].target
      invariant forall b :: b in cppList ==> b.target.destroyCount == 0
      invariant forall b :: b in cppList ==> b.target.mSelf == old(b.target.mSelf) && b.target.blocks == old(b.target.blocks)
      invariant forall b :: b in cppList ==> b.target.refCount == old(b.target.refCount) + multiset(result)[b.target]
    {
      var cppPtr := cppList[i];
      cppPtr.target.AddRef();
      result := result + [cppPtr.target];
    }
  }
}
