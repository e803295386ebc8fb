# Ansible roll-over driver: node bookkeeping and inventory, in Dafny

This project models the part of the ceph-ansible roll-over test driver
(`run()` in `tests/test_ansible_roll_over.py`) that decides what the
cluster looks like before the ansible playbook runs:

- **Adding daemons to nodes (`add` requests).** Each request names a node
  by a regular expression over the nodes' short names and lists the daemons
  to add.
  - Exactly one node must match.
  - The node must have at least as many free volumes as the request has
    `osd` entries.
  - That many free volumes, taken from the end of the free list, become
    allocated, and the daemons are added to the node's roles.
  - The first failing request stops the run.
- **The 2.x manager filter.** On a build whose version starts with `2`,
  manager nodes are dropped from the working node list.
- **The node loop.** Every working node needs a network interface, or the
  run returns 1. Each role the node holds adds one host line to that
  role's list.
  - An OSD node's line lists its devices: `/dev/vdb`, `/dev/vdc`, … up to
    the number of allocated volumes. With the non-collocated journal
    scenario, the dedicated journal devices are removed from the list.
  - The list is rendered as a JSON array unless auto-discovery is on.
  - The loop counts OSD devices, monitors and managers.
- **The hosts file.** The six lists become `[mons]`, `[mgrs]`, `[osds]`,
  `[mdss]`, `[rgws]` and `[clients]` sections, in that order. An empty
  list leaves out its section.

Modules:

- `Cluster`: the `Node` class (short name, roles, volumes, interface),
  which the driver updates in place, and its value snapshot `NodeState`.
- `AddNodes`: the `add` requests, as functions on node states and as
  methods on node objects.
- `BuildFilter`: the 2.x manager filter.
- `Devices`: device names, the reserved-device filter, the JSON list and
  the OSD host line.
- `Inventory`: the node loop and the hosts file.
- `Driver`: the order in which `run` uses these pieces.
- `Wrappers` and `Text`: small support modules.

Each method on node objects is proved to return what a function on node
states returns, over a `Snapshot` of the nodes, and states the nodes' new
states. For `Run` the new states are stated up to which nodes get an
interface: each set interface is the one looked up for that node, and on a
2.x build no manager gets one. The lemmas state the driver's promises about
the functions.

Three inputs are parameters:

- The regular-expression engine is a parameter `matches(pattern, name)`.
- The interface lookup `search_ethernet_interface` is a parameter: a list
  aligned with the nodes in `Inventory`, a function of the short name in
  `Driver`.
- The configuration entries are plain values (`RunConfig`, `OsdSettings`).

The role container of a node (from `ceph/ceph.py`) is modelled as a set of
role names:

- `node.role == 'x'` is membership.
- `update_role` adds the listed daemons.

## Model

| member | source | states |
|---|---|---|
| Cluster.Node.constructor | tests/test_ansible_roll_over.py:69-88 | a node object, with the short name, roles and volumes the driver reads, starts with no interface |
| Cluster.Snapshot | tests/test_ansible_roll_over.py:69-88 | helper: one state per node object, read position by position |
| Cluster.Node.UpdateRole | tests/test_ansible_roll_over.py:88 | the node's roles grow by exactly the request's daemons; nothing else about the node changes |
| Cluster.Node.SetEthInterface | tests/test_ansible_roll_over.py:179 | only the node's interface changes, to the one found |
| Cluster.ShortNames | tests/test_ansible_roll_over.py:69 | one short name per node, position by position |
| Cluster.IndicesWith | tests/test_ansible_roll_over.py:80 | the free (or allocated) volume positions: in increasing order, and exactly the positions with that status |
| Cluster.FreeIndices | tests/test_ansible_roll_over.py:80 | `get_free_volumes`: the free positions in increasing order; free and allocated volumes together are all of the node's volumes |
| Cluster.AllocatedCount | tests/test_ansible_roll_over.py:190 | `len(get_allocated_volumes())`: at most the number of volumes, and zero exactly when no volume is allocated |
| Cluster.StatusCounts | tests/test_ansible_roll_over.py:80 | helper for `FreeIndices`: every volume is free or allocated |
| Cluster.IncreasingUnique | tests/test_ansible_roll_over.py:80 | helper for `AllocateLastEffect`: two increasing position lists with the same members are equal |
| AddNodes.OsdsRequired | tests/test_ansible_roll_over.py:68 | keeps only `osd` entries, as many as the daemon list holds |
| AddNodes.MatchedNames | tests/test_ansible_roll_over.py:69-71 | a name is kept only if it is a node's short name that the pattern matches, and every matching short name is kept |
| AddNodes.LastIndexOf | tests/test_ansible_roll_over.py:77-79 | -1 exactly when the name is absent; otherwise the last position holding it |
| AddNodes.FindLastNamed | tests/test_ansible_roll_over.py:77-79 | the loop over the node objects finds the last node with the matched short name |
| AddNodes.Resolve | tests/test_ansible_roll_over.py:69-79 | a selected node is in range; the only errors are "several match" and "none match" |
| AddNodes.TwoMatchesCounted | tests/test_ansible_roll_over.py:71-72 | two matching nodes make the matched list at least two long |
| AddNodes.MatchedTwiceWitness | tests/test_ansible_roll_over.py:71-72 | a matched list of two or more comes from two distinct matching nodes |
| AddNodes.SeveralMatches | tests/test_ansible_roll_over.py:71-74 | the matched list has two or more names exactly when two nodes match |
| AddNodes.SingleMatch | tests/test_ansible_roll_over.py:75-79 | with one matched name, the selected node matches and no other node does |
| AddNodes.ResolveExactlyOne | tests/test_ansible_roll_over.py:69-79 | node i is selected iff it is the only match; "no match" iff no node matches; "multiple" iff two nodes match |
| AddNodes.AllocateLast | tests/test_ansible_roll_over.py:86-87 | allocating keeps the number of volumes (what it allocates is stated by `AllocateLastEffect`) |
| AddNodes.AllocateLastEffect | tests/test_ansible_roll_over.py:80-87 | allocating k volumes removes the last k free positions, adds exactly k allocated volumes and frees nothing |
| AddNodes.AllocateVolumes | tests/test_ansible_roll_over.py:86-87 | the pop loop on the node object allocates the last free volumes, one per OSD |
| AddNodes.AddStep | tests/test_ansible_roll_over.py:65-88 | a successful request keeps the number of nodes |
| AddNodes.AddStepSelected | tests/test_ansible_roll_over.py:80-88 | for the single matching node: too few free volumes gives the insufficient-volumes error with both counts; otherwise only that node changes, its roles grow by the daemons and k more of its volumes are allocated |
| AddNodes.AddStepMatchErrors | tests/test_ansible_roll_over.py:69-76 | no matching node gives "no match"; two matching nodes give "multiple matches" |
| AddNodes.AddAll | tests/test_ansible_roll_over.py:63-88 | the requests keep the number of nodes |
| AddNodes.AddAllKeepsNames | tests/test_ansible_roll_over.py:63-88 | no request renames, adds or removes a node |
| AddNodes.ApplyAdd | tests/test_ansible_roll_over.py:65-88 | one request on the node objects leaves them exactly as the state-level step says, or unchanged with its error |
| AddNodes.ApplyAdds | tests/test_ansible_roll_over.py:63-88 | all requests on the node objects end in the state-level outcome and error |
| BuildFilter.BuildVersion | tests/test_ansible_roll_over.py:102 | the default build `3` is not a 2.x build; a configured build is 2.x exactly when it starts with `2` |
| BuildFilter.WithoutMgrs | tests/test_ansible_roll_over.py:105 | the kept nodes come from the list, are no more than it, and none is a manager |
| BuildFilter.WorkingNodes | tests/test_ansible_roll_over.py:104-105 | the working nodes come from the list, and on a 2.x build none is a manager |
| BuildFilter.SnapshotWithoutMgrs | tests/test_ansible_roll_over.py:105 | filtering the node objects and then reading them is the same as filtering their states |
| BuildFilter.WithoutMgrStatesSpec | tests/test_ansible_roll_over.py:105 | a state is kept iff it has no manager role; no manager is left; the list shrinks by the manager count |
| BuildFilter.WithoutMgrsMembers | tests/test_ansible_roll_over.py:105 | a node is kept iff it is not a manager |
| BuildFilter.WithoutMgrsAppend | tests/test_ansible_roll_over.py:105 | the filter keeps the relative order of the nodes |
| BuildFilter.WithoutMgrsDistinct | tests/test_ansible_roll_over.py:105 | filtering never duplicates a node |
| BuildFilter.WorkingNodesSpec | tests/test_ansible_roll_over.py:102-105 | on a 2.x build no manager remains and every non-manager stays; on other builds the list is unchanged |
| BuildFilter.WorkingNodesSnapshot | tests/test_ansible_roll_over.py:102-105 | the working node list reads as the working states and stays duplicate-free |
| BuildFilter.NoRoleNoCount | tests/test_ansible_roll_over.py:105 | helper: a role no node holds counts zero |
| Devices.DeviceNames | tests/test_ansible_roll_over.py:191-196 | k paths, the i-th being `/dev/vd` and the letter with code 98 + i |
| Devices.DeviceNamesSpec | tests/test_ansible_roll_over.py:190-196 | k names, each `/dev/vd` plus the letter `chr(98 + i)`, pairwise distinct, and the first m are the names for m volumes |
| Devices.ThreeDevices | tests/test_ansible_roll_over.py:191-196 | three volumes give `/dev/vdb`, `/dev/vdc`, `/dev/vdd` |
| Devices.EnumerateDevices | tests/test_ansible_roll_over.py:190-196 | the `devchar` loop yields the device names, or the `chr` range error beyond 158 volumes |
| Devices.RemoveReserved | tests/test_ansible_roll_over.py:201 | the filter keeps no reserved device and adds none |
| Devices.RemoveReservedMembers | tests/test_ansible_roll_over.py:201 | a device survives iff it was listed and is not reserved |
| Devices.RemoveReservedAppend | tests/test_ansible_roll_over.py:201 | the filter keeps the order of the devices |
| Devices.RemoveNothing | tests/test_ansible_roll_over.py:197-201 | with nothing reserved, the device list is unchanged |
| Devices.RemoveReservedLength | tests/test_ansible_roll_over.py:197-202 | on duplicate-free devices the list shrinks by exactly the number of reserved devices present |
| Devices.DistinctLast | tests/test_ansible_roll_over.py:201 | helper for `RemoveReservedLength`: a duplicate-free list's last device is not in the rest |
| Devices.ReservedPresent | tests/test_ansible_roll_over.py:197-202 | helper for `RemoveReservedLength`: one more device raises the reserved-and-present count by one exactly when it is reserved |
| Devices.DevicesFor | tests/test_ansible_roll_over.py:190-201 | enumeration fails exactly past the last letter or when the non-collocated scenario lists no dedicated devices; it never yields more devices than volumes |
| Devices.DevicesForSpec | tests/test_ansible_roll_over.py:189-201 | too many volumes is the `chr` error; without the non-collocated scenario all device names are kept; with it, a missing dedicated list is an error, and otherwise exactly the non-dedicated names are kept |
| Devices.QuoteAll | tests/test_ansible_roll_over.py:205 | helper: one quoted string per device |
| Devices.JsonList | tests/test_ansible_roll_over.py:205 | the rendered list is bracketed, and `[]` for no devices (its content is stated by `JsonRoundTrip`) |
| Devices.QuoteIndex | tests/test_ansible_roll_over.py:205 | helper for the reference reader: the next double quote at or after a position, or the end |
| Devices.ParseFirstItem | tests/test_ansible_roll_over.py:205 | helper for `JsonRoundTrip`: a quoted item is read back up to its closing quote |
| Devices.ParseOneItem | tests/test_ansible_roll_over.py:205 | helper for `JsonRoundTrip`: one quoted item reads back as itself |
| Devices.ParseMoreItems | tests/test_ansible_roll_over.py:205 | helper for `JsonRoundTrip`: a quoted item then `, ` reads back as that item followed by the rest |
| Devices.ParseItemsJoined | tests/test_ansible_roll_over.py:205 | the `, `-joined quoted items read back as the items |
| Devices.JsonRoundTrip | tests/test_ansible_roll_over.py:205 | the JSON list of quote-free strings parses back to exactly those strings |
| Devices.DevicesQuoteFree | tests/test_ansible_roll_over.py:194-201 | no device name the driver lists contains a double quote, so the model's JSON list round-trips |
| Devices.DevicesJsonPlain | tests/test_ansible_roll_over.py:194-205 | up to 29 volumes every listed device name is printable ASCII without quote or backslash, which `json.dumps` writes unescaped |
| Devices.ThirtiethDeviceEscaped | tests/test_ansible_roll_over.py:194-205 | the 30th device name ends in chr(127), which `json.dumps` would escape |
| Devices.OsdHostLine | tests/test_ansible_roll_over.py:180-205 | the OSD line starts with the short name and the monitor-interface part, and is exactly that part when auto-discovery is on |
| Devices.OsdHostLineDevices | tests/test_ansible_roll_over.py:180-205 | the OSD line starts with the short name and monitor interface; with auto-discovery it is nothing more; otherwise the quoted ` devices=` part parses back to exactly the devices |
| Inventory.OsdStep | tests/test_ansible_roll_over.py:189-206 | an OSD node adds exactly one OSD line and its device count, or fails at this node with the enumeration's error; nothing else changes |
| Inventory.NodeStep | tests/test_ansible_roll_over.py:175-215 | a failure names this node; "no interface" only when the lookup found none, a device failure only when it found one |
| Inventory.Collect | tests/test_ansible_roll_over.py:174-215 | a failure names a node of the list; "no interface" only for a node without one, a device failure only for a node with one |
| Inventory.CollectStopsAtFirstFailure | tests/test_ansible_roll_over.py:174-206 | the loop succeeds iff every node has an interface and usable devices; a failure names the first node that lacks them |
| Inventory.CollectPrefixFailure | tests/test_ansible_roll_over.py:174-178 | once a prefix of the nodes fails, the later nodes do not matter |
| Inventory.NodeStepEffect | tests/test_ansible_roll_over.py:179-215 | a node adds one line to each of its roles' lists, with the role's interface key, and bumps the monitor, manager and OSD-device counters accordingly |
| Inventory.CollectLines | tests/test_ansible_roll_over.py:174-215 | each list holds one line per node of that role, in node order |
| Inventory.CollectCounts | tests/test_ansible_roll_over.py:171-202 | the monitor and manager counters equal their lists' lengths and role counts; each list is as long as its role count; the OSD counter is the total of the nodes' filtered devices |
| Inventory.SetInterfaces | tests/test_ansible_roll_over.py:179 | the nodes the loop reached carry the interface found for them; nothing else about any node changes |
| Inventory.InterfacedSpec | tests/test_ansible_roll_over.py:174-179 | a finished loop sets every node's interface; a stopped one sets those before the failing node, sets the failing node's only on a device failure, and leaves later nodes unchanged |
| Inventory.AddNodeHosts | tests/test_ansible_roll_over.py:175-215 | one loop iteration on a node object is the state-level step, and it sets the node's interface when one was found |
| Inventory.CollectHosts | tests/test_ansible_roll_over.py:165-215 | the loop on the node objects gives the state-level result, and sets the interfaces of the nodes it reached |
| Inventory.RenderEmpty | tests/test_ansible_roll_over.py:217-235 | the hosts file is empty exactly when no section has lines |
| Inventory.HostsFile | tests/test_ansible_roll_over.py:217-235 | the hosts file is empty exactly when all six host lists are |
| Inventory.RenderLines | tests/test_ansible_roll_over.py:217-235 | the hosts file is the non-empty sections' lines, each ended by a newline |
| Inventory.RenderAppend | tests/test_ansible_roll_over.py:217-235 | helper: rendering two runs of sections is rendering each |
| Inventory.RenderPrefix | tests/test_ansible_roll_over.py:217-235 | helper: one more section adds its part at the end |
| Inventory.HostsFileParts | tests/test_ansible_roll_over.py:217-235 | the hosts file is the mons, mgrs, osds, mdss, rgws and clients parts in that order |
| Inventory.AppendPart | tests/test_ansible_roll_over.py:218-220 | one `if` block appends the header, the newline-joined lines and a newline, or nothing for an empty list |
| Inventory.PresentNamesAppend | tests/test_ansible_roll_over.py:217-235 | helper: the present sections of two runs are those of each |
| Inventory.PresentPrefix | tests/test_ansible_roll_over.py:217-235 | helper: one more section is present at the end iff it has lines |
| Inventory.PresentSections | tests/test_ansible_roll_over.py:217-235 | the sections present are those with lines, in the fixed order |
| Inventory.RenderHostsFile | tests/test_ansible_roll_over.py:217-235 | the six `if` blocks build exactly the hosts file |
| Inventory.InventorySections | tests/test_ansible_roll_over.py:217-235 | a section appears iff at least one working node has its role, in the fixed order; the file is the lines of those sections |
| Inventory.BuildInventory | tests/test_ansible_roll_over.py:165-235 | the node loop and the hosts file on node objects: the loop's error, or the file text with the OSD and monitor counts; the nodes end as the loop leaves them |
| Text.JoinThenNewline | tests/test_ansible_roll_over.py:219-220 | `'\n'.join` of the lines plus a newline is each line ended by a newline |
| Text.UnlinesAppend | tests/test_ansible_roll_over.py:217-235 | helper for `RenderLines`: the lines of two parts are the lines of each |
| Text.ElementsLast | tests/test_ansible_roll_over.py:200 | helper: the set of a list's entries is that of the entries before the last, plus the last |
| Driver.InterfacesOf | tests/test_ansible_roll_over.py:175 | one interface lookup per working node, by its short name |
| Driver.RunSpec | tests/test_ansible_roll_over.py:63-235 | an add error stops the run; otherwise `skip_setup` ends it; only a run without both builds the inventory |
| Driver.InventoryStepNoMgrs | tests/test_ansible_roll_over.py:185-223 | with no manager among the working nodes, the manager list is empty, no manager is counted and the `[mgrs]` section is absent |
| Driver.RunNoMgrsOn2x | tests/test_ansible_roll_over.py:101-223 | on a 2.x build that reaches the hosts file, no manager is counted and `[mgrs]` is absent, even if an `add` request made a node a manager |
| Driver.InventoryFromNodes | tests/test_ansible_roll_over.py:101-235 | the 2.x filter and the inventory on node objects give the inventory of the working states; the working nodes end as the loop leaves them, the others unchanged, and only interfaces change, each to its node's lookup |
| Driver.Run | tests/test_ansible_roll_over.py:63-235 | the run on node objects gives the state-level result; the nodes end as the add requests leave them, except interfaces set to their nodes' lookups, never on a 2.x manager |

## Left out

- Everything `run` does through the network or the installer node is not modelled:
  - repositories and CDN set-up, package installs, firewall ports, sleeps
  - the ISO download, installing ceph-ansible
  - writing the hosts file and `all.yml`, running the playbook, health checks
  These steps are I/O on remote nodes.
- Lines 90-96 are not modelled. They only read configuration entries that the modelled steps do not use.
- Line 103, `test_data['install_version'] = build`, is not modelled: it is shared test state with no effect on the inventory.
- Lines 107-164 are not modelled: the firewall and repository loops, and the installer choice.
  - So the crash at line 157 when no node holds the installer role is not modelled either.
  - The model reaches the inventory without an installer node.
- `ceph/ceph.py` is not part of this model. `CephNode`, its role container, `get_free_volumes`, `get_allocated_volumes` and `set_eth_interface` are modelled from their use here:
  - roles are a set of names;
  - free volumes are listed in volume order;
  - `update_role` adds the listed daemons.
- `search_ethernet_interface` is an input, not modelled. `Driver` looks it up by short name.
- The regular-expression engine and `re.compile` errors are not modelled. Matching is the parameter `matches`, as `re.match` on a short name.
- The error messages are not modelled, only which error occurs. The insufficient-volumes message reads `matched_ceph_node.shotrtname`, which would itself raise an attribute error in place of the intended message.
- A missing `node`, `node-name` or `demon` entry in an `add` request is not modelled. The Python raises on `None`; the model assumes each request carries a pattern and a daemon list.
- The Python 2 semantics of `filter` (a list) and `chr` (at most 255) are followed.
  - Past 158 volumes a node's device letters leave the `chr` range; this is modelled as an error.
- Devices.OsdHostLine: from the 30th device on, the rendered list differs from the one `json.dumps` writes.
  - The 30th name ends in `chr(127)`, which `json.dumps` writes as `\u007f`.
  - From the 31st device, the names end in bytes from `chr(128)` up, and Python 2's `json.dumps` raises on them.
  - The model renders all of these names as they are.
- Devices.JsonList: only the escaping-free case of `json.dumps` is modelled. For up to 29 volumes every device name needs no escaping (`DevicesJsonPlain`); the 30th does (`ThirtiethDeviceEscaped`).
- Driver.Run: does not name, node by node, which nodes end with a new interface. It states that each set interface is the one looked up for that node and that no 2.x manager gets one. `InventoryFromNodes` gives the exact new states of the working nodes.
- `osd_auto_discovery` is modelled as a boolean. Python truthiness of other values is not modelled.
- The OSD line has two spaces before `devices=`. The monitor-interface part ends with a space and the devices part begins with one; the model keeps both.
- Aliasing is not modelled: the methods require the node list to hold each node object once.
- Logging is not modelled.
