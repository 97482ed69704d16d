/** Every source in the traversal is an element of the tensor. */
module ReorderSources {
  import opened ReorderSpec
  import opened Rounding

  predicate HeldSlot(p: Shape, s: Slot) {
    s.Source? ==> p.Holds(s.at)
  }

  /** The sources among the slots are elements of the tensor. */
  ghost predicate Held(p: Shape, s: seq<Slot>) {
    forall k :: 0 <= k < |s| ==> HeldSlot(p, s[k])
  }

  lemma {:induction false} TimesHeld(p: Shape, n: nat, f: nat -> seq<Slot>)
    requires forall k: nat :: k < n ==> Held(p, f(k))
    ensures Held(p, Times(n, f))
  {
    if n > 0 {
      TimesHeld(p, n - 1, f);
      assert Held(p, f(n - 1));
    }
  }

  /** Only elements of the tensor are sources. */
  lemma SlotHolds(p: Shape, at: Place, ifmUblockZ: nat)
    requires at.Valid(p)
    ensures HeldSlot(p, SlotOf(p, at, ifmUblockZ))
  {
    assert 0 <= at.element % at.SubWidth(p) < at.SubWidth(p) && at.element / at.SubWidth(p) >= 0;
  }

  lemma OfmElementsHeld(p: Shape, at: Place)
    requires at.Valid(p)
    ensures Held(p, OfmElements(p, at))
  {
    forall k: nat ensures Held(p, OfmElement(p, at)(k)) {
      var place := at.(ofmUblockZ := k);
      forall z: nat ensures Held(p, IfmElement(p, place)(z)) {
        SlotHolds(p, place, z);
      }
      TimesHeld(p, if p.isDepthwise then 1 else p.ifmUblockDepth, IfmElement(p, place));
    }
    TimesHeld(p, p.ofmUblockDepth, OfmElement(p, at));
  }

  lemma IfmUblocksHeld(p: Shape, at: Place)
    requires at.Valid(p)
    ensures Held(p, IfmUblocks(p, at))
  {
    forall k: nat ensures Held(p, IfmUblock(p, at)(k)) {
      OfmElementsHeld(p, at.(ifmUblkInner := k * p.ifmUblockDepth));
    }
    TimesHeld(p, CeilDiv(if p.isPartkernel then 1 else at.IfmClip(p), p.ifmUblockDepth), IfmUblock(p, at));
  }

  lemma KernelElementsHeld(p: Shape, at: Place)
    requires at.Valid(p)
    ensures Held(p, KernelElements(p, at))
  {
    forall k: nat ensures Held(p, KernelElement(p, at)(k)) {
      IfmUblocksHeld(p, at.(element := k));
    }
    TimesHeld(p, p.SubkernelElements(at.SubWidth(p), at.SubHeight(p)), KernelElement(p, at));
  }

  lemma OfmUblocksHeld(p: Shape, at: Place)
    requires at.Valid(p)
    ensures Held(p, OfmUblocks(p, at))
  {
    forall k: nat ensures Held(p, OfmUblock(p, at)(k)) {
      KernelElementsHeld(p, at.(ofmUblk := k * p.ofmUblockDepth));
    }
    TimesHeld(p, CeilDiv(at.OfmClip(p), p.ofmUblockDepth), OfmUblock(p, at));
  }

  lemma IfmOutersHeld(p: Shape, at: Place)
    requires at.Valid(p)
    ensures Held(p, IfmOuters(p, at))
  {
    forall k: nat ensures Held(p, IfmOuter(p, at)(k)) {
      OfmUblocksHeld(p, at.(ifmUblkOuter := k * p.ifmUblockDepth));
    }
    TimesHeld(p, CeilDiv(if p.isPartkernel then at.IfmClip(p) else 1, p.ifmUblockDepth), IfmOuter(p, at));
  }

  lemma RowHeld(p: Shape, at: Place)
    requires p.Valid() && at.ofmBlockZ < p.ofmDepth && at.ifmBlockZ < p.IfmExtent() && at.subkernelY < p.kernelHeight
    ensures Held(p, SubkernelRow(p, at))
  {
    forall k: nat ensures Held(p, SubkernelAt(p, at)(k)) {
      if k * p.decompW < p.kernelWidth {
        IfmOutersHeld(p, at.(subkernelX := k * p.decompW));
      }
    }
    TimesHeld(p, CeilDiv(p.kernelWidth, p.decompW), SubkernelAt(p, at));
  }

  lemma KernelHeld(p: Shape, at: Place)
    requires p.Valid() && at.ofmBlockZ < p.ofmDepth && at.ifmBlockZ < p.IfmExtent()
    ensures Held(p, Kernel(p, at))
  {
    forall k: nat ensures Held(p, RowAt(p, at)(k)) {
      if k * p.decompH < p.kernelHeight {
        RowHeld(p, at.(subkernelY := k * p.decompH));
      }
    }
    TimesHeld(p, CeilDiv(p.kernelHeight, p.decompH), RowAt(p, at));
  }

  lemma IfmBlocksHeld(p: Shape, at: Place)
    requires p.Valid() && at.ofmBlockZ < p.ofmDepth
    ensures Held(p, IfmBlocks(p, at))
  {
    forall k: nat ensures Held(p, IfmBlockAt(p, at)(k)) {
      if k * p.IfmBlockDepth() < p.IfmExtent() {
        KernelHeld(p, at.(ifmBlockZ := k * p.IfmBlockDepth()));
      }
    }
    TimesHeld(p, CeilDiv(p.IfmExtent(), p.IfmBlockDepth()), IfmBlockAt(p, at));
  }

  /** The traversal never reads outside the tensor. */
  lemma SourcesAreHeld(p: Shape, k: nat)
    requires p.Valid() && k < |Traversal(p)|
    ensures Traversal(p)[k].Source? ==> p.Holds(Traversal(p)[k].at)
  {
    forall z: nat ensures Held(p, OfmBlockAt(p)(z)) {
      if z * p.ofmBlockDepth < p.ofmDepth {
        IfmBlocksHeld(p, START.(ofmBlockZ := z * p.ofmBlockDepth));
      }
    }
    TimesHeld(p, CeilDiv(p.ofmDepth, p.ofmBlockDepth), OfmBlockAt(p));
    assert HeldSlot(p, Traversal(p)[k]);
  }
}
