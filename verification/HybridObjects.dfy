/**
 The value of one HybridObject of ios/belle-sip.framework/Headers/object++.hh and the
 operations on it: an intrusive count shared by C holders, and control blocks of shared
 pointers, of which the newest is remembered through a weak pointer.
 */
module HybridObjects {
  import opened Wrappers

  /**
   `refs` is the intrusive count, `destroyed` how often the destructor ran, `blocks` the use
   counts of the control blocks made so far, `self` the block the weak pointer refers to.
   */
  datatype Obj = Obj(refs: nat, destroyed: nat, blocks: seq<nat>, self: Option<nat>)

  /** The constructor leaves one reference, owned by whoever called `new`. */
  const NEW_OBJ := Obj(1, 0, [], None)

  /** `mSelf.lock()` yields a pointer. */
  predicate Locks(o: Obj) {
    o.self.Some? && o.self.value < |o.blocks| && o.blocks[o.self.value] > 0
  }

  function Ref(o: Obj): Obj {
    o.(refs := o.refs + 1)
  }

  /** `unref`: the object is destroyed when the count drops to zero. */
  function Unref(o: Obj): Obj
    requires o.refs > 0
  {
    o.(refs := o.refs - 1, destroyed := if o.refs == 1 then o.destroyed + 1 else o.destroyed)
  }

  datatype Obtained = Fatal | Obtained(obj: Obj, block: nat)

  /** `sharedFromThis(withTransfer)`. */
  function SharedFromThis(o: Obj, withTransfer: bool): Obtained {
    if !Locks(o) then
      var made := o.(blocks := o.blocks + [1], self := Some(|o.blocks|));
      Obtained(if withTransfer then made else Ref(made), |o.blocks|)
    else if withTransfer then Fatal
    else Obtained(CopyShared(o, o.self.value), o.self.value)
  }

  function CopyShared(o: Obj, block: nat): Obj
    requires block < |o.blocks|
  {
    o.(blocks := o.blocks[block := o.blocks[block] + 1])
  }

  /** The last pointer of a block runs the deleter, `constUnref`. */
  function DropShared(o: Obj, block: nat): Obj
    requires block < |o.blocks| && o.blocks[block] > 0 && (o.blocks[block] == 1 ==> o.refs > 0)
  {
    var dropped := o.(blocks := o.blocks[block := o.blocks[block] - 1]);
    if o.blocks[block] == 1 then Unref(dropped) else dropped
  }

  /** `getSharedFromThis()` called n times. */
  function GetSharedTimes(o: Obj, n: nat): Obj {
    if n == 0 then o else SharedFromThis(GetSharedTimes(o, n - 1), false).obj
  }

  /** However often a pointer is asked for, the object pays with one reference, and only if none was alive. */
  lemma {:induction false} GetSharedPaysOnce(o: Obj, n: nat)
    requires n > 0
    ensures var r := GetSharedTimes(o, n);
      && Locks(r) && r.refs == o.refs + (if Locks(o) then 0 else 1) && r.destroyed == o.destroyed
      && |r.blocks| == |o.blocks| + (if Locks(o) then 0 else 1)
      && r.blocks[r.self.value] == n + (if Locks(o) then o.blocks[o.self.value] else 0)
      && forall k :: 0 <= k < |o.blocks| && k != r.self.value ==> r.blocks[k] == o.blocks[k]
    decreases n
  {
    if n > 1 {
      GetSharedPaysOnce(o, n - 1);
    } else {
      assert GetSharedTimes(o, 0) == o;
    }
  }
}
