/** Device handles and the relations between them (src/device.rs).

    A device is a handle around one sysfs path. Equality looks only at that
    path, and the relations are computed on demand against a collection the
    caller supplies:

    - `Parent` keeps the other devices whose path this device's path starts
      with, and returns the one with the most components;
    - `Descendants` yields, in collection order, the other devices whose
      path starts with this device's path.

    "Other" means not equal to this device, which is path equality, so an
    entry of the collection with this device's own path is never related to
    it and ancestors are strict prefixes.
 */
module Devices {

  import opened Paths
  import opened Iter

  datatype Device = Device(sysfsPath: Path) {

    /** `sysfs_path()`: the path the device was built from
        (FromPathRoundTrip, EqualIffSamePath). */
    function SysfsPath(): (p: Path)
      ensures Device(p) == this
    {
      sysfsPath
    }

    /** The devices of `devices` other than this one, in order. */
    function Others(devices: seq<Device>): (r: seq<Device>)
      ensures |r| <= |devices|
      ensures forall i :: 0 <= i < |r| ==> r[i] != this
    {
      Filter(devices, (d: Device) => d != this)
    }

    /** The other devices whose path this device's path starts with; exactly
        the entries that are ancestors (AncestorsAreFilter,
        AncestorsMembership). */
    function Ancestors(devices: seq<Device>): (r: seq<Device>)
      ensures |r| <= |devices|
      ensures forall i :: 0 <= i < |r| ==> StartsWith(sysfsPath, r[i].sysfsPath)
    {
      Filter(Others(devices), (d: Device) => StartsWith(sysfsPath, d.sysfsPath))
    }

    /** The ancestor with the most path components; the last one of them in
        collection order when several have that many (ParentIsStrictAncestor,
        ParentNoneIff, ParentIsDeepest, ParentIsLastDeepest, ParentIsUnique). */
    function Parent(devices: seq<Device>): (r: Option<Device>)
      ensures r.None? <==> Ancestors(devices) == []
      ensures r.Some? ==> r.value in Ancestors(devices) && StartsWith(sysfsPath, r.value.sysfsPath)
    {
      MaxByKey(Ancestors(devices), (d: Device) => |d.sysfsPath|)
    }

    /** The other devices whose path starts with this device's path, at every
        depth, in collection order (DescendantsAreFilter,
        DescendantsMembership, DescendantsInOrder). */
    function Descendants(devices: seq<Device>): (r: seq<Device>)
      ensures |r| <= |devices|
      ensures forall i :: 0 <= i < |r| ==> StartsWith(r[i].sysfsPath, sysfsPath)
    {
      Filter(Others(devices), (d: Device) => StartsWith(d.sysfsPath, sysfsPath))
    }
  }

  /** `Device::from(path)`. */
  function FromPath(sysfsPath: Path): (d: Device)
    ensures d.SysfsPath() == sysfsPath
  {
    Device(sysfsPath)
  }

  /** What `impl Hash for Device` feeds to the hasher: the sysfs path alone. */
  function HashInput(d: Device): (p: Path)
    ensures FromPath(p) == d
  {
    d.sysfsPath
  }

  /** `a` passes the ancestor filter of `b.parent(..)`: it is another device
      than `b` and `b`'s path starts with `a`'s. */
  predicate IsAncestorOf(a: Device, b: Device) {
    a != b && StartsWith(b.sysfsPath, a.sysfsPath)
  }

  // ---------------------------------------------------------------------
  // The handle

  lemma FromPathRoundTrip(p: Path)
    ensures FromPath(p).SysfsPath() == p
  {
  }

  /** Devices are equal exactly when their paths are equal. */
  lemma EqualIffSamePath(a: Device, b: Device)
    ensures a == b <==> a.SysfsPath() == b.SysfsPath()
    ensures FromPath(a.SysfsPath()) == a
  {
  }

  /** Hashing agrees with equality: equal devices feed the same input to
      the hasher, and devices with the same hash input are equal. */
  lemma HashAgreesWithEquality(a: Device, b: Device)
    ensures a == b <==> HashInput(a) == HashInput(b)
  {
  }

  // ---------------------------------------------------------------------
  // The ancestor relation

  /** An ancestor's path is a strict prefix: it has fewer components. */
  lemma AncestorIsStrictPrefix(a: Device, b: Device)
    requires IsAncestorOf(a, b)
    ensures StartsWith(b.sysfsPath, a.sysfsPath) && |a.sysfsPath| < |b.sysfsPath|
  {
    assert b.sysfsPath[..|b.sysfsPath|] == b.sysfsPath;
  }

  /** An ancestor of an ancestor is an ancestor. */
  lemma AncestorTransitive(a: Device, b: Device, c: Device)
    requires IsAncestorOf(a, b) && IsAncestorOf(b, c)
    ensures IsAncestorOf(a, c)
  {
    StartsWithTransitive(c.sysfsPath, b.sysfsPath, a.sysfsPath);
    AncestorIsStrictPrefix(a, b);
    AncestorIsStrictPrefix(b, c);
  }

  // ---------------------------------------------------------------------
  // Parent

  /** The two filters of `parent` are one filter by IsAncestorOf. */
  lemma AncestorsAreFilter(self: Device, devices: seq<Device>)
    ensures self.Ancestors(devices) == Filter(devices, (d: Device) => IsAncestorOf(d, self))
  {
    FilterFilter(devices, (d: Device) => d != self,
                 (d: Device) => StartsWith(self.sysfsPath, d.sysfsPath),
                 (d: Device) => IsAncestorOf(d, self));
  }

  /** An entry is among the ancestors exactly when it is in the collection
      and passes the ancestor filter. */
  lemma AncestorsMembership(self: Device, devices: seq<Device>, d: Device)
    ensures d in self.Ancestors(devices) <==> d in devices && IsAncestorOf(d, self)
  {
    AncestorsAreFilter(self, devices);
    FilterMembers(devices, (d: Device) => IsAncestorOf(d, self), d);
  }

  /** A parent is an entry of the collection, is not equal to the device,
      and its path is a strict component-wise prefix of the device's path. */
  lemma ParentIsStrictAncestor(self: Device, devices: seq<Device>)
    ensures self.Parent(devices).Some? ==>
      var p := self.Parent(devices).value;
      p in devices && p != self && StartsWith(self.sysfsPath, p.sysfsPath) && |p.sysfsPath| < |self.sysfsPath|
  {
    if self.Parent(devices).Some? {
      var p := self.Parent(devices).value;
      AncestorsMembership(self, devices, p);
      AncestorIsStrictPrefix(p, self);
    }
  }

  /** No entry with the device's own path is ever its parent. */
  lemma ParentNeverSamePath(self: Device, devices: seq<Device>, d: Device)
    requires d.sysfsPath == self.sysfsPath
    ensures self.Parent(devices) != Some(d)
    ensures d !in self.Ancestors(devices)
  {
    AncestorsMembership(self, devices, d);
  }

  /** There is no parent exactly when no other entry is an ancestor. */
  lemma ParentNoneIff(self: Device, devices: seq<Device>)
    ensures self.Parent(devices).None? <==> forall d :: d in devices ==> !IsAncestorOf(d, self)
  {
    forall d | d in devices
      ensures IsAncestorOf(d, self) ==> d in self.Ancestors(devices)
    {
      AncestorsMembership(self, devices, d);
    }
    var ancestors := self.Ancestors(devices);
    if ancestors != [] {
      AncestorsMembership(self, devices, ancestors[0]);
    }
  }

  /** The parent has at least as many components as every ancestor. */
  lemma ParentIsDeepest(self: Device, devices: seq<Device>)
    ensures self.Parent(devices).Some? ==>
      forall d :: d in devices && IsAncestorOf(d, self) ==>
        |d.sysfsPath| <= |self.Parent(devices).value.sysfsPath|
  {
    forall d | d in devices && IsAncestorOf(d, self)
      ensures d in self.Ancestors(devices)
    {
      AncestorsMembership(self, devices, d);
    }
  }

  /** Ties go to the last entry: the parent stands at a position of the
      collection after which every ancestor has strictly fewer components. */
  lemma ParentIsLastDeepest(self: Device, devices: seq<Device>)
    ensures self.Parent(devices).Some? ==>
      exists i :: 0 <= i < |devices| && devices[i] == self.Parent(devices).value
        && forall j :: i < j < |devices| && IsAncestorOf(devices[j], self) ==>
             |devices[j].sysfsPath| < |devices[i].sysfsPath|
  {
    var isAncestor, depth := (d: Device) => IsAncestorOf(d, self), (d: Device) => |d.sysfsPath|;
    AncestorsAreFilter(self, devices);
    MaxByKeyOfFilter(devices, isAncestor, depth);
    if self.Parent(devices).Some? {
      var i :| NothingKeptAsGreatAfter(devices, isAncestor, depth, i)
        && devices[i] == self.Parent(devices).value;
    }
  }

  /** Two ancestors of one device with the same number of components are
      the same prefix of its path, hence the same device. */
  lemma AncestorsOfEqualDepthAreEqual(self: Device, a: Device, b: Device)
    requires IsAncestorOf(a, self) && IsAncestorOf(b, self)
    requires |a.sysfsPath| == |b.sysfsPath|
    ensures a == b
  {
  }

  /** So a tie on depth in `parent` is only ever between duplicate entries
      of one device: every ancestor in the collection as deep as the parent
      is equal to it, and the tie rule only decides which entry's position
      the result comes from. */
  lemma ParentTiesAreDuplicates(self: Device, devices: seq<Device>, d: Device)
    requires d in devices && IsAncestorOf(d, self)
    requires self.Parent(devices).Some? && |d.sysfsPath| == |self.Parent(devices).value.sysfsPath|
    ensures d == self.Parent(devices).value
  {
    var p := self.Parent(devices).value;
    ParentIsStrictAncestor(self, devices);
    AncestorsOfEqualDepthAreEqual(self, d, p);
  }

  /** The three properties above pin the parent down: an ancestor in the
      collection that is at least as deep as every ancestor, and after whose
      position every ancestor is shallower, is the parent. */
  lemma ParentIsUnique(self: Device, devices: seq<Device>, q: Device, i: int)
    requires 0 <= i < |devices| && devices[i] == q && IsAncestorOf(q, self)
    requires forall d :: d in devices && IsAncestorOf(d, self) ==> |d.sysfsPath| <= |q.sysfsPath|
    requires forall j :: i < j < |devices| && IsAncestorOf(devices[j], self) ==>
               |devices[j].sysfsPath| < |q.sysfsPath|
    ensures self.Parent(devices) == Some(q)
  {
    ParentNoneIff(self, devices);
    ParentIsStrictAncestor(self, devices);
    ParentIsDeepest(self, devices);
    ParentIsLastDeepest(self, devices);
    var p := self.Parent(devices).value;
    var k :| 0 <= k < |devices| && devices[k] == p
      && forall j :: k < j < |devices| && IsAncestorOf(devices[j], self) ==>
           |devices[j].sysfsPath| < |devices[k].sysfsPath|;
    assert |p.sysfsPath| == |q.sysfsPath|;
    assert !(k < i) && !(i < k);
  }

  // ---------------------------------------------------------------------
  // Descendants

  /** The two filters of `descendants` are one filter by IsAncestorOf. */
  lemma DescendantsAreFilter(self: Device, devices: seq<Device>)
    ensures self.Descendants(devices) == Filter(devices, (d: Device) => IsAncestorOf(self, d))
  {
    FilterFilter(devices, (d: Device) => d != self,
                 (d: Device) => StartsWith(d.sysfsPath, self.sysfsPath),
                 (d: Device) => IsAncestorOf(self, d));
  }

  /** `descendants` yields exactly the other entries whose path starts with
      this device's path, each as often as it occurs in the collection. */
  lemma DescendantsMembership(self: Device, devices: seq<Device>, d: Device)
    ensures d in self.Descendants(devices) <==> d in devices && IsAncestorOf(self, d)
    ensures multiset(self.Descendants(devices))[d] == if IsAncestorOf(self, d) then multiset(devices)[d] else 0
  {
    DescendantsAreFilter(self, devices);
    FilterMembers(devices, (d: Device) => IsAncestorOf(self, d), d);
  }

  /** `descendants` keeps collection order: it is a subsequence of the
      collection, and the descendants found in a front part of the
      collection all come before those found in the rest. */
  lemma DescendantsInOrder(self: Device, front: seq<Device>, back: seq<Device>)
    ensures IsSubsequence(self.Descendants(front + back), front + back)
    ensures self.Descendants(front + back) == self.Descendants(front) + self.Descendants(back)
  {
    var isBelow := (d: Device) => IsAncestorOf(self, d);
    DescendantsAreFilter(self, front + back);
    DescendantsAreFilter(self, front);
    DescendantsAreFilter(self, back);
    FilterIsSubsequence(front + back, isBelow);
    FilterAppend(front, back, isBelow);
  }

  /** No entry with the device's own path is ever among its descendants,
      and every descendant's path is strictly longer. */
  lemma DescendantsAreStrict(self: Device, devices: seq<Device>, d: Device)
    requires d in self.Descendants(devices)
    ensures d.sysfsPath != self.sysfsPath && |self.sysfsPath| < |d.sysfsPath|
  {
    DescendantsMembership(self, devices, d);
    AncestorIsStrictPrefix(self, d);
  }

  /** Descendants are found at every depth: a descendant of a descendant in
      the collection is a descendant. */
  lemma DescendantsAtEveryDepth(a: Device, b: Device, c: Device, devices: seq<Device>)
    requires b in a.Descendants(devices) && c in b.Descendants(devices)
    ensures c in a.Descendants(devices)
  {
    DescendantsMembership(a, devices, b);
    DescendantsMembership(b, devices, c);
    DescendantsMembership(a, devices, c);
    AncestorTransitive(a, b, c);
  }

  // ---------------------------------------------------------------------
  // Duality

  /** For entries `a` and `b` of the collection, `b` is yielded by
      `a.descendants(..)` exactly when `a` is kept by `b.parent(..)`'s
      ancestor filter. */
  lemma DescendantAncestorDuality(a: Device, b: Device, devices: seq<Device>)
    requires a in devices && b in devices
    ensures b in a.Descendants(devices) <==> a in b.Ancestors(devices)
  {
    DescendantsMembership(a, devices, b);
    AncestorsMembership(b, devices, a);
  }

  /** A device is among the descendants of its parent. */
  lemma ChildOfParent(b: Device, devices: seq<Device>)
    requires b in devices && b.Parent(devices).Some?
    ensures b in b.Parent(devices).value.Descendants(devices)
  {
    var p := b.Parent(devices).value;
    ParentIsStrictAncestor(b, devices);
    DescendantAncestorDuality(p, b, devices);
    AncestorsMembership(b, devices, p);
  }

  // ---------------------------------------------------------------------
  // The segment boundary

  /** In every collection, `/sys/devices/pci1` is neither the parent nor an
      ancestor of `/sys/devices/pci10`, and the latter is not among the
      former's descendants. */
  lemma SegmentBoundaryInAnyCollection(devices: seq<Device>)
    ensures var pci1 := Device(["/", "sys", "devices", "pci1"]);
            var pci10 := Device(["/", "sys", "devices", "pci10"]);
            pci10.Parent(devices) != Some(pci1) && pci1 !in pci10.Ancestors(devices)
            && pci10 !in pci1.Descendants(devices)
  {
    var pci1 := Device(["/", "sys", "devices", "pci1"]);
    var pci10 := Device(["/", "sys", "devices", "pci10"]);
    SegmentBoundary();
    AncestorsMembership(pci10, devices, pci1);
    DescendantsMembership(pci1, devices, pci10);
  }

  /** In the collection of just those two devices, `/sys/devices/pci10`
      has no parent and `/sys/devices/pci1` has no descendants, although the
      first path is a string prefix of the second. */
  lemma SegmentBoundaryRelations()
    ensures var pci1 := Device(["/", "sys", "devices", "pci1"]);
            var pci10 := Device(["/", "sys", "devices", "pci10"]);
            pci10.Parent([pci1, pci10]).None? && pci1.Descendants([pci1, pci10]) == []
  {
    var pci1 := Device(["/", "sys", "devices", "pci1"]);
    var pci10 := Device(["/", "sys", "devices", "pci10"]);
    SegmentBoundary();
    assert !IsAncestorOf(pci1, pci10);
    ParentNoneIff(pci10, [pci1, pci10]);
    DescendantsAreFilter(pci1, [pci1, pci10]);
    DescendantsAreFilter(pci1, [pci1]);
    assert [pci1, pci10] == [pci1] + [pci10];
  }
}
