/** The mock sysfs that the repository's tests use (src/testing.rs): eight
    device paths under `<sysfs>/devices`, and what the relations of
    src/device.rs give on them. The sysfs root is a parameter, so every
    result below holds wherever that root lies.
 */
module MockSysfs {

  import opened Paths
  import opened Iter
  import opened Devices

  /** `prefix_dev_path`: a path relative to `<sysfs>/devices`, made absolute. */
  function PrefixDevPath(sysfs: Path, devPath: seq<Component>): (p: Path)
    ensures StartsWith(p, sysfs + ["devices"])
    ensures |p| == |sysfs| + 1 + |devPath| && p[|sysfs| + 1..] == devPath
  {
    sysfs + ["devices"] + devPath
  }

  function Dev(sysfs: Path, devPath: seq<Component>): Device {
    FromPath(PrefixDevPath(sysfs, devPath))
  }

  /** The paths of `mock_dev_paths()`, relative to `<sysfs>/devices`, in the
      order listed. */
  const MockDevPaths: seq<seq<Component>> := [
    ["device_0"],
    ["device_1"],
    ["device_1", "device_2"],
    ["device_1", "device_2", "device_3"],
    ["device_1", "device_2", "device_4"],
    ["device_5"],
    ["device_6"],
    ["device_7"]
  ]

  /** `mock_dev_paths()`, as devices: entry `i` is the device of listed
      path `i`, and, as in the deduplicated scan the fixture stands for, no
      device occurs twice. */
  function MockDevices(sysfs: Path): (ds: seq<Device>)
    ensures |ds| == |MockDevPaths|
    ensures forall i :: 0 <= i < |ds| ==> ds[i].SysfsPath() == PrefixDevPath(sysfs, MockDevPaths[i])
    ensures forall i, j :: 0 <= i < j < |ds| ==> ds[i] != ds[j]
  {
    seq(|MockDevPaths|, i requires 0 <= i < |MockDevPaths| => Dev(sysfs, MockDevPaths[i]))
  }

  /** Under a common root, the ancestor relation is decided by the relative
      paths alone. */
  lemma {:induction false} AncestorUnderRoot(sysfs: Path, a: seq<Component>, b: seq<Component>)
    ensures IsAncestorOf(Dev(sysfs, a), Dev(sysfs, b)) <==> a != b && StartsWith(b, a)
  {
    var root := sysfs + ["devices"];
    StartsWithUnderRoot(root, b, a);
    if a != b {
      assert (root + a)[|root|..] == a && (root + b)[|root|..] == b;
    }
  }

  /** How each fixture entry relates to a given fixture path. */
  lemma {:induction false} AncestorFacts(sysfs: Path, rel: seq<Component>)
    ensures forall i :: 0 <= i < |MockDevPaths| ==>
      (IsAncestorOf(MockDevices(sysfs)[i], Dev(sysfs, rel)) <==>
         MockDevPaths[i] != rel && StartsWith(rel, MockDevPaths[i]))
      && (IsAncestorOf(Dev(sysfs, rel), MockDevices(sysfs)[i]) <==>
         MockDevPaths[i] != rel && StartsWith(MockDevPaths[i], rel))
  {
    forall i | 0 <= i < |MockDevPaths|
      ensures (IsAncestorOf(MockDevices(sysfs)[i], Dev(sysfs, rel)) <==>
                 MockDevPaths[i] != rel && StartsWith(rel, MockDevPaths[i]))
           && (IsAncestorOf(Dev(sysfs, rel), MockDevices(sysfs)[i]) <==>
                 MockDevPaths[i] != rel && StartsWith(MockDevPaths[i], rel))
    {
      AncestorUnderRoot(sysfs, MockDevPaths[i], rel);
      AncestorUnderRoot(sysfs, rel, MockDevPaths[i]);
    }
  }

  /** The parent of `device_1/device_2/device_3` is `device_1/device_2`. */
  lemma {:induction false} ParentOfDevice3(sysfs: Path)
    ensures Dev(sysfs, ["device_1", "device_2", "device_3"]).Parent(MockDevices(sysfs))
         == Some(Dev(sysfs, ["device_1", "device_2"]))
  {
    var ds := MockDevices(sysfs);
    var self := Dev(sysfs, ["device_1", "device_2", "device_3"]);
    var expected := Dev(sysfs, ["device_1", "device_2"]);
    AncestorFacts(sysfs, ["device_1", "device_2", "device_3"]);
    assert ds[2] == expected;
    assert IsAncestorOf(expected, self);
    ParentNoneIff(self, ds);
    ParentIsStrictAncestor(self, ds);
    ParentIsDeepest(self, ds);
    var p := self.Parent(ds).value;
    var i :| 0 <= i < |ds| && ds[i] == p;
    assert |p.sysfsPath| >= |expected.sysfsPath|;
  }

  /** `device_1` has no parent. */
  lemma {:induction false} Device1HasNoParent(sysfs: Path)
    ensures Dev(sysfs, ["device_1"]).Parent(MockDevices(sysfs)).None?
  {
    var ds := MockDevices(sysfs);
    var self := Dev(sysfs, ["device_1"]);
    AncestorFacts(sysfs, ["device_1"]);
    AncestorsAreFilter(self, ds);
    FilterDropsAll(ds, (d: Device) => IsAncestorOf(d, self));
  }

  /** The descendants of `device_1` are `device_1/device_2`,
      `device_1/device_2/device_3` and `device_1/device_2/device_4`, in that
      order. */
  lemma {:induction false} DescendantsOfDevice1(sysfs: Path)
    ensures Dev(sysfs, ["device_1"]).Descendants(MockDevices(sysfs))
         == [ Dev(sysfs, ["device_1", "device_2"]),
              Dev(sysfs, ["device_1", "device_2", "device_3"]),
              Dev(sysfs, ["device_1", "device_2", "device_4"]) ]
  {
    var ds := MockDevices(sysfs);
    var self := Dev(sysfs, ["device_1"]);
    var isBelow := (d: Device) => IsAncestorOf(self, d);
    Device1Below(sysfs);
    DescendantsAreFilter(self, ds);
    FilterKeepsSlice(ds, isBelow, 2, 5);
    assert ds[2..5] == [ds[2], ds[3], ds[4]];
  }

  /** The entries below `device_1` are those at positions 2 to 4. */
  lemma {:induction false} Device1Below(sysfs: Path)
    ensures forall i :: 0 <= i < |MockDevPaths| ==>
      (IsAncestorOf(Dev(sysfs, ["device_1"]), MockDevices(sysfs)[i]) <==> 2 <= i < 5)
  {
    AncestorFacts(sysfs, ["device_1"]);
  }

  /** `device_0` has no descendants. */
  lemma {:induction false} Device0HasNoDescendants(sysfs: Path)
    ensures Dev(sysfs, ["device_0"]).Descendants(MockDevices(sysfs)) == []
  {
    var ds := MockDevices(sysfs);
    var self := Dev(sysfs, ["device_0"]);
    AncestorFacts(sysfs, ["device_0"]);
    DescendantsAreFilter(self, ds);
    FilterDropsAll(ds, (d: Device) => IsAncestorOf(self, d));
  }
}
