# Device relations of `devs`

`devs` enumerates the devices in the Linux sysfs and represents each one as a
`Device`, a handle around one canonical sysfs path. Relations between devices
are not stored: they are inferred from path containment, against a collection
of devices that the caller supplies.

- `parent` keeps the devices of the collection that are not equal to this
  device and whose path this device's path starts with, and returns the one
  with the most path components (`max_by_key`, so the last such one on a tie).
- `descendants` yields, in collection order, the devices of the collection
  that are not equal to this device and whose path starts with this device's
  path, at every depth.

This project models those relations (src/device.rs) and proves their
properties. It is organised as follows.

- `paths.dfy`, module `Paths`: a path is the sequence of its components, as
  `Path::components()` yields them (an absolute path starts with the root
  component, written "/"), so `components().count()` is the length of the
  sequence. `Path::starts_with` compares whole components and is sequence
  prefix (`StartsWith`); `pci1` is not a prefix of `pci10`.
- `iter.dfy`, module `Iter`: the two iterator adapters used, `filter` and
  `max_by_key`, over finite sequences, written as front-to-back folds, with
  their properties: what a filter keeps and how often, that it keeps order,
  and that `max_by_key` returns the last of several equal maxima.
- `devices.dfy`, module `Devices`: the `Device` datatype with `Parent` and
  `Descendants` written as the same filter chains as the source, and the
  lemmas about them: parent soundness, maximality, tie-breaking, uniqueness,
  the `None` case, descendants' membership, multiplicity and order, and the
  duality between the two.
- `fixture.dfy`, module `MockSysfs`: the eight device paths of the test
  fixture (src/testing.rs), under an arbitrary sysfs root, and the results
  the relations give on them.

The model follows the code on three points:

- Self-exclusion is by value equality (`device != &self` with the derived
  `PartialEq`), not by identity. Every entry of the collection whose path
  equals this device's path is dropped, so ancestors are strict prefixes.
- `descendants` is an ordered sequence with the collection's multiplicities,
  not a set: an entry that occurs twice in the collection is yielded twice.
- Ties in `parent` are broken by `max_by_key`'s rule: the last of the
  deepest ancestors in collection order. Two different devices never tie,
  since ancestors of one device with the same component count are the same
  prefix of its path; a tie is only between duplicate entries of one device,
  and the rule decides which entry's position the result comes from.

## Model

| member | source | states |
|---|---|---|
| `Devices.FromPath` | src/device.rs:14-19 | `Device::from(path)`: reading the path of the result gives back `path` (full round trip in FromPathRoundTrip) |
| `Devices.Device.SysfsPath` | src/device.rs:31-33 | `sysfs_path()`: the device is exactly the one built from the returned path (EqualIffSamePath) |
| `Devices.HashInput` | src/device.rs:21-26 | the hasher is fed the sysfs path alone, and the device is the one built from that input |
| `Devices.HashAgreesWithEquality` | src/device.rs:7-26 | two devices are equal exactly when their hash inputs are equal, so hashing agrees with the derived equality |
| `Devices.Device.Others` | src/device.rs:37-44 | the first filter of `parent` (line 37) and of `descendants` (line 44): no longer than the collection, and no item equal to the device |
| `Devices.Device.Ancestors` | src/device.rs:37-38 | the candidates of `parent`: no longer than the collection, every one's path a prefix of the device's path; exact membership in AncestorsAreFilter and AncestorsMembership |
| `Devices.Device.Parent` | src/device.rs:36-40 | `parent`: None exactly when there is no candidate, otherwise a candidate whose path is a prefix of the device's path; the full contract is in ParentIsStrictAncestor, ParentNoneIff, ParentIsDeepest, ParentIsLastDeepest and ParentIsUnique |
| `Devices.Device.Descendants` | src/device.rs:43-46 | `descendants`: no longer than the collection, every item's path starts with the device's path; exact membership, multiplicity and order in DescendantsAreFilter, DescendantsMembership and DescendantsInOrder |
| `Devices.FromPathRoundTrip` | src/device.rs:14-33 | constructing a device from a path and reading `sysfs_path` gives back that path |
| `Devices.EqualIffSamePath` | src/device.rs:7-26 | two devices are equal exactly when their sysfs paths are equal (equality and hashing look only at the path), and a device is rebuilt from its path |
| `Paths.StartsWith` | src/device.rs:38 | `Path::starts_with`: the base's components are the leading components of the path, compared whole; a path of the base's own length starts with it only when it is the base (component-wise reading in StartsWithAt; also used at src/device.rs:45) |
| `Paths.StartsWithAt` | src/device.rs:38 | `starts_with` holds exactly when the base is no longer than the path and agrees with it component by component |
| `Paths.DifferingComponentIsNoPrefix` | src/device.rs:38 | one differing component at any position rules out the prefix relation |
| `Paths.SiblingsAreNoPrefix` | src/device.rs:38 | two different names under one parent never start with each other, even if one name is a character prefix of the other |
| `Paths.SegmentBoundary` | src/device.rs:38 | "/sys/devices/pci1" is a string prefix of "/sys/devices/pci10" but not a component prefix |
| `Iter.Filter` | src/device.rs:37-38 | `filter` yields no more items than its input, and every item it yields passes the test |
| `Iter.FilterMembers` | src/device.rs:37-38 | an item is yielded exactly when it is in the input and passes the test, and then with the multiplicity it has in the input |
| `Iter.FilterIsSubsequence` | src/device.rs:44-45 | the filter's output is a subsequence of its input (order is kept) |
| `Iter.FilterAppend` | src/device.rs:44-45 | filtering a concatenation is the concatenation of the filtered parts |
| `Iter.FilterFilter` | src/device.rs:37-38 | two filters in a row equal one filter by the conjunction of their tests |
| `Iter.MaxByKey` | src/device.rs:39 | `max_by_key` returns None exactly on an empty input, and otherwise an item of the input whose key is at least every item's key |
| `Iter.MaxByKeyIsLast` | src/device.rs:39 | the item returned stands at a position after which every key is strictly smaller: the last of the equal maxima |
| `Iter.MaxByKeyOfFilter` | src/device.rs:38-39 | the maximum of a filtered input stands in the unfiltered input at a position after which every item that passes the filter has a strictly smaller key |
| `Devices.AncestorIsStrictPrefix` | src/device.rs:37-38 | a device kept by the ancestor filter has a path that is a prefix of the other's, with strictly fewer components |
| `Devices.AncestorTransitive` | src/device.rs:38 | an ancestor of an ancestor is an ancestor |
| `Devices.AncestorsAreFilter` | src/device.rs:37-38 | the two filters of `parent` select exactly the entries that are other devices and whose path is a prefix of this device's path |
| `Devices.AncestorsMembership` | src/device.rs:37-38 | an entry is among the candidates of `parent` exactly when it is in the collection and is an ancestor |
| `Devices.ParentIsStrictAncestor` | src/device.rs:36-39 | a returned parent is in the collection, is not equal to the device, and its path is a strict component prefix of the device's path |
| `Devices.ParentNeverSamePath` | src/device.rs:37 | an entry with the device's own path is never a parent candidate and never the parent |
| `Devices.ParentNoneIff` | src/device.rs:36-39 | `parent` returns None exactly when no entry of the collection is an ancestor |
| `Devices.ParentIsDeepest` | src/device.rs:39 | the parent has at least as many components as every ancestor in the collection |
| `Devices.ParentIsLastDeepest` | src/device.rs:38-39 | the parent stands at a position of the collection after which every ancestor has strictly fewer components (ties go to the last) |
| `Devices.AncestorsOfEqualDepthAreEqual` | src/device.rs:38-39 | two ancestors of one device with the same component count are the same device, so no two different devices tie on the key of `max_by_key` |
| `Devices.ParentTiesAreDuplicates` | src/device.rs:38-39 | every ancestor in the collection as deep as the parent is equal to the parent |
| `Devices.ParentIsUnique` | src/device.rs:36-39 | any ancestor in the collection that is deepest and has only shallower ancestors after its position is the parent |
| `Devices.DescendantsAreFilter` | src/device.rs:43-46 | the two filters of `descendants` select exactly the other entries whose path starts with this device's path |
| `Devices.DescendantsMembership` | src/device.rs:43-46 | an entry is yielded by `descendants` exactly when it is in the collection and this device is its ancestor, with the multiplicity it has in the collection |
| `Devices.DescendantsInOrder` | src/device.rs:43-46 | `descendants` is a subsequence of the collection, and the descendants in a front part of the collection come before those in the rest |
| `Devices.DescendantsAreStrict` | src/device.rs:44-45 | no descendant has the device's own path, and every descendant's path is strictly longer |
| `Devices.DescendantsAtEveryDepth` | src/device.rs:45 | a descendant of a descendant is a descendant |
| `Devices.DescendantAncestorDuality` | src/device.rs:37-45 | for entries `a` and `b`, `b` is yielded by `a`'s descendants exactly when `a` is kept by `b`'s parent filter |
| `Devices.ChildOfParent` | src/device.rs:36-46 | a device of the collection is among the descendants of its parent |
| `Devices.SegmentBoundaryInAnyCollection` | src/device.rs:36-46 | in every collection, `.../pci1` is neither the parent nor an ancestor candidate of `.../pci10`, and `.../pci10` is not among the descendants of `.../pci1` |
| `Devices.SegmentBoundaryRelations` | src/device.rs:36-46 | in the collection of just those two devices, `.../pci10` has no parent and `.../pci1` has no descendants |
| `MockSysfs.PrefixDevPath` | src/testing.rs:30-33 | `prefix_dev_path`: the result starts with `<sysfs>/devices` and continues with exactly the relative path's components |
| `MockSysfs.MockDevices` | src/testing.rs:14-27 | the fixture holds as many devices as listed paths, entry `i` has the path of listed path `i` under `<sysfs>/devices`, and no device occurs twice |
| `MockSysfs.AncestorUnderRoot` | src/testing.rs:30-33 | under the common fixture root, the ancestor relation is decided by the relative paths |
| `MockSysfs.ParentOfDevice3` | src/testing.rs:15-24 | the parent of `device_1/device_2/device_3` is `device_1/device_2` |
| `MockSysfs.Device1HasNoParent` | src/testing.rs:15-24 | `device_1` has no parent |
| `MockSysfs.DescendantsOfDevice1` | src/testing.rs:15-24 | the descendants of `device_1` are `device_1/device_2`, `device_1/device_2/device_3` and `device_1/device_2/device_4`, in that order |
| `MockSysfs.Device0HasNoDescendants` | src/testing.rs:15-24 | `device_0` has no descendants |

## Left out

- The scanner (src/scan.rs `Scanner::scan`, `scan_bus`, `scan_class`, `scan_block`): it is made of `read_dir`, `read_link`, `is_symlink` and `canonicalize` calls against the live `/sys` tree, with set insertion as its only logic; the filesystem is not modelled.
- src/lib.rs: an older copy of the same scanner, collecting into a vector without deduplication; filesystem I/O as above.
- Path normalisation done by `PathBuf` (repeated separators, trailing slashes, `.` components): paths are taken as already split into components.
- The hasher internals of `impl Hash for Device`: only what is fed to the hasher (the path, `HashInput`) is modelled, not the hash value computed from it.
- Laziness and borrowing: the iterator returned by `descendants` is modelled by the sequence of items it yields; lifetimes of the returned references are not modelled.
- The `cfg(target_os = "linux")` gating and the crate's `SYSFS_PATH` constant, which is not part of this model: the fixture results are proved for every sysfs root.
- The `usize` component count used as the key of `max_by_key` is an unbounded natural number; a path long enough to overflow it cannot exist.
- A "direct children" relation: the source has none; `descendants` is the only downward relation.
