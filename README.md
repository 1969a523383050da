# QEMU engine core: virtual-machine supervisor, command line and network pool

This project models two parts of the QEMU engine of taskcluster-worker in Dafny.

- **The virtual-machine supervisor** `virtualMachine` (engines/qemu/vm.go).
  - It holds a leased network segment, a disk-image instance, two socket paths, a one-shot `started` flag, the `Done` signal and `Error`.
  - `Start` spawns QEMU once. A spawn error closes `Done` at once.
  - Otherwise a monitor waits for the process to exit. It then releases the network and the image, clears both, removes the sockets and blanks their paths. Only after all that does it close `Done`.
  - `Kill`, `SetHTTPHandler` and `VNCSocket` degrade gracefully once the resources are gone.
  - The supervisor is the class `QemuEngine.VirtualMachine`. The monitor goroutine is the method `OnExit`. A ghost event trace records the observable steps, so orderings such as "released before `Done`" are stated as lemmas about the trace grammar `TraceOf`.
- **The QEMU command line** (module `QemuOptions`).
  - The `arg` closure renders `kind,k=v,k=v`. It is a loop method (`BuildArg`) proved against a function (`Arg`).
  - `Arg` equals a comma join of its parts, and splitting it at commas gives those parts back.
  - The argument list of `newVirtualMachine` is `CommandLine`. Lemmas show that it wires the VM's own VNC and QMP sockets, the image's disk file and MAC, and the network's netdev under the ids that refer to them.
  - That wiring holds only when the socket paths, the disk file, the NIC model and the MAC hold no comma, because they go into the option values unescaped. `VncDisplayPartIff` shows the condition is necessary for the VNC socket.
- **The network pool** (module `NetworkPool`), as `TestNetworkCreateDestroy` pins it down.
  - A `Pool` keeps one in-use flag per slot in an `array<bool>`.
  - `Network()` leases the first free slot, or fails with `AllNetworksInUse` when every slot is taken.
  - `Network.Release()` frees the slot.
  - `Dispose` reports the first teardown error once every lease is back.
  - The test itself is a method whose postcondition is what it asserts, on both rounds.

The design states that a failed run never leaks the leased network or image, and that `Done` is closed only after both are released. The code does not do this on a spawn failure: `Start` closes `Done` at once and releases nothing (engines/qemu/vm.go:164-168), and nothing in the modelled files releases them later. The model follows the code. `SpawnFailureKeepsLease` and `QemuLifecycle.SpawnFailureReleasesNothing` state this behaviour, and `ReleasedBeforeDone` is proved for traces where the process did run.

The image instance (module `Image`) is the small interface the supervisor uses: a disk file, a NIC device model, a MAC, and a `Release` that may happen once.

## Model

| member | source | states |
|---|---|---|
| QemuOptions.Arg | engines/qemu/vm.go:45-54 | What `arg` returns for a kind and an option sequence. It is "" exactly when the kind is empty and there are no options. |
| QemuOptions.BuildArg | engines/qemu/vm.go:45-54 | The `arg` loop returns `Arg(kind, opts)`: kind, then for each option a comma when the result so far is non-empty, then `k=v`. |
| QemuOptions.ArgIsJoin | engines/qemu/vm.go:45-54 | `arg`'s output is its parts (kind unless empty, then one `k=v` per option, in order) joined by single commas. |
| QemuOptions.ArgSplit | engines/qemu/vm.go:45-54 | Round trip: when kind, keys and values hold no comma and the output is not empty, splitting it at commas yields exactly those parts, so there is no empty, leading or trailing part. |
| QemuOptions.ArgEnds | engines/qemu/vm.go:45-54 | With no options the output is the kind. Otherwise it ends with the last `k=v` (no trailing comma). It starts with the kind, or directly with the first `k=v` when the kind is empty (no leading comma). |
| QemuOptions.SplitJoin | engines/qemu/vm.go:45-54 | `Split` inverts `Join` on non-empty comma-free parts; this is the reference decoding for `arg`. |
| QemuOptions.JoinEmpty | engines/qemu/vm.go:45-54 | Joining non-empty parts gives "" exactly when there are no parts. |
| QemuOptions.PartsNonEmpty | engines/qemu/vm.go:46-51 | Every part `arg` emits is non-empty: an empty kind is skipped, and every item holds `=`. |
| QemuOptions.Item | engines/qemu/vm.go:51 | Every option item contains `=`. |
| QemuOptions.LastComma | engines/qemu/vm.go:48-50 | The index of the last comma of a string, or -1 when there is none, with no comma after it. |
| QemuOptions.VncWiring | engines/qemu/vm.go:107-109 | When the VNC socket path holds no comma, the command line has a `-vnc` whose value has `unix:<vncSocket>` as a comma-separated part. |
| QemuOptions.QmpWiring | engines/qemu/vm.go:110-111 | When the QMP socket path holds no comma, one `-chardev` value has both `id=qmp-socket` and `path=<qmpSocket>` among its parts, and `-qmp` is followed by exactly `qmp-socket`, the same id. |
| QemuOptions.NetworkWiring | engines/qemu/vm.go:84-91 | `-netdev` is followed by exactly the network's NetDev value. When the NIC model and the MAC hold no comma, one and the same `-device` value has both `netdev=netdev-0`, the id the network is declared with, and `mac=<image MAC>` among its parts. |
| QemuOptions.DiskWiring | engines/qemu/vm.go:112-129 | When the disk file path holds no comma, one `-drive` value has both `file=<disk file>` and `id=boot-disk` among its parts, and a `-device` boots from `drive=boot-disk`. |
| QemuOptions.VncDisplayPartIff | engines/qemu/vm.go:107-109 | The socket path enters the `-vnc` value unescaped: `unix:<vncSocket>` is one of its comma-separated parts exactly when the path holds no comma. |
| QemuOptions.SplitPartsCommaFree | engines/qemu/vm.go:48-51 | No comma-separated part of a value holds a comma. |
| QemuOptions.CommandLine | engines/qemu/vm.go:55-131 | The argument list has 44 entries. The lemmas below place each entry and show what it wires. |
| QemuOptions.CommandLineFixed | engines/qemu/vm.go:55-131 | Positions of the fixed entries: machine and controller options first (24 entries), each flag of the network, display, QMP and disk options, the input devices, the QMP id `qmp-socket` and the boot device. |
| QemuOptions.CommandLineValues | engines/qemu/vm.go:84-121 | The five values built from the VM's resources sit right after their flags: the netdev, the NIC, the VNC display, the QMP chardev and the drive. |
| QemuOptions.OnlyWiringVaries | engines/qemu/vm.go:55-131 | Any two VMs' argument lists agree on every entry except those five values, at positions 25, 27, 35, 37 and 41. |
| QemuOptions.ItemInAnyOrder | engines/qemu/vm.go:45-54 | For every order of a comma-free map's entries, each entry's `k=v` is a comma-separated part of `arg`'s output, so Go's map order does not matter. |
| QemuOptions.NicPartsAnyOrder | engines/qemu/vm.go:85-91 | For every order of the NIC's options, its value has `netdev=netdev-0` and `mac=<image MAC>` among its parts. |
| QemuOptions.DrivePartsAnyOrder | engines/qemu/vm.go:112-121 | For every order of the drive's options, its value has `file=<disk file>` and `id=boot-disk` among its parts. |
| QemuOptions.BootDevicePartsAnyOrder | engines/qemu/vm.go:122-129 | For every order of the boot device's options, its value has `drive=boot-disk` among its parts. |
| QemuOptions.InContext | engines/qemu/vm.go:55-131 | An option found in the network, console or disk segment is found in the whole argument list. |
| QemuOptions.FlagAppend | engines/qemu/vm.go:55-131 | An option found in either half of an argument list, as an exact value or as one comma-separated part of its value, is found in the concatenation. |
| QemuOptions.FlagIsAppend | engines/qemu/vm.go:55-131 | A flag followed by exactly a value in either half of an argument list is followed by it in the concatenation. |
| QemuOptions.FlagHasAppend | engines/qemu/vm.go:55-131 | A flag whose value has a given comma-separated part, in either half of an argument list, has it in the concatenation. |
| QemuOptions.OptFlag | engines/qemu/vm.go:55-131 | A flag followed by a value carries that value and each comma-separated part of it. |
| QemuOptions.ItemInArg | engines/qemu/vm.go:45-54 | With no commas in kind, keys or values, every option's `k=v` is one of the comma-separated parts of `arg`'s output. |
| QemuOptions.KindInArg | engines/qemu/vm.go:45-54 | With no commas in kind, keys or values, a non-empty kind is one of the comma-separated parts of `arg`'s output. |
| QemuOptions.SplitLast | engines/qemu/vm.go:48-51 | Appending a comma and a comma-free piece appends exactly that piece to the split. |
| QemuOptions.VncDisplayPart | engines/qemu/vm.go:107-109 | `unix:<vncSocket>` is a comma-separated part of the `-vnc` value when the socket path holds no comma. |
| QemuOptions.BootDeviceParts | engines/qemu/vm.go:122-129 | The boot device's options include `drive=boot-disk`. |
| QemuEngine.JoinPath | engines/qemu/vm.go:37-38 | `filepath.Join(dir, name)`: the path ends with the name. An empty dir gives the name itself. Otherwise the path starts with the dir and has a `/` right before the name. |
| QemuEngine.SocketPath | engines/qemu/vm.go:37-38 | A socket path is never empty and ends in `.sock`. |
| QemuEngine.VirtualMachine.constructor | engines/qemu/vm.go:32-41 | A new VM holds the given network and image, has both sockets at `socketFolder/<id>.sock`, is not started, has `Done` open and no error, and its argument list is `CommandLine` over its own sockets, the image's disk file, NIC and MAC, and the network's `NetDev("netdev-0")`. |
| QemuEngine.VirtualMachine.SetHTTPHandler | engines/qemu/vm.go:144-151 | The handler is forwarded to the network while the VM holds one, and the VM itself is unchanged. Once stopped, the network is nil and nothing is forwarded. |
| QemuEngine.VirtualMachine.Start | engines/qemu/vm.go:154-168 | Only an unstarted VM may start; afterwards it is started. `Error` is the spawn result. `Done` is closed exactly when spawning failed. Network, image and sockets are unchanged. The trace grows by Started plus SpawnFailed and DoneClosed, or plus Spawned. |
| QemuEngine.VirtualMachine.OnExit | engines/qemu/vm.go:171-194 | On exit, `Error` is the wait result. The network's slot is freed in its pool and its handler cleared. The image is released. Both references are nil and both socket paths "". The trace gains Exited, NetworkReleased, ImageReleased, SocketsRemoved and DoneClosed, in that order. |
| QemuEngine.VirtualMachine.CloseDone | engines/qemu/vm.go:183-193 | With both handles released, the sockets are removed and their paths blanked, and only then is `Done` closed. The trace gains SocketsRemoved then DoneClosed and becomes a stopped trace recording `Error` and the removed paths. |
| QemuEngine.VirtualMachine.ReleaseResources | engines/qemu/vm.go:177-180 | The monitor releases the network (its slot flag cleared, handler dropped) and then the image; both handles end nil. The trace gains NetworkReleased then ImageReleased, each step appended where it happens. |
| QemuEngine.VirtualMachine.Kill | engines/qemu/vm.go:197-205 | After `Done`, nothing changes. Before it, only a kill request is recorded; no resource field changes. |
| QemuEngine.VirtualMachine.VNCSocket | engines/qemu/vm.go:207-214 | Returns the stored VNC path. It is "" exactly when the monitor has run, and otherwise the path generated at construction. |
| QemuLifecycle.DoneOnceAndLast | engines/qemu/vm.go:164-168 | In every trace, `Done` is closed exactly when the phase is finished. It is then the last step and happens exactly once. |
| QemuLifecycle.ReleasedBeforeDone | engines/qemu/vm.go:174-193 | After a normal exit, the network and the image are each released, and never a second time, and both releases and the socket removal come before `Done` is closed. |
| QemuLifecycle.ReleaseOnlyAfterExit | engines/qemu/vm.go:171-180 | In every trace, each release directly follows the process's exit, never a kill request or a spawn. |
| QemuLifecycle.SpawnFailureReleasesNothing | engines/qemu/vm.go:164-168 | A failed spawn releases neither network nor image, removes no socket and has no exit. |
| QemuLifecycle.KillKeepsRunning | engines/qemu/vm.go:198-205 | A kill request keeps a running trace running and adds no release. |
| QemuLifecycle.ExitCompletesRun | engines/qemu/vm.go:171-194 | The monitor's five steps after a running trace form a stopped trace that records the wait result and the removed sockets. |
| QemuLifecycle.RunTraceSteps | engines/qemu/vm.go:154-172 | Before the process exits, a trace holds only the start, the spawn and kill requests. |
| QemuLifecycle.StoppedSteps | engines/qemu/vm.go:154-172 | In a stopped trace, every step before the exit is the start, the spawn or a kill request. |
| QemuLifecycle.ConstructedConsistent | engines/qemu/vm.go:32-41 | A new supervisor holding both resources and both non-empty socket paths, not started, with `Done` open and no error, satisfies the supervisor invariant. |
| QemuLifecycle.StartConsistent | engines/qemu/vm.go:154-168 | Both outcomes of `Start` keep the invariant: a failed spawn with `Done` closed and the spawn error, or a running process with no error. |
| QemuLifecycle.StoppedConsistent | engines/qemu/vm.go:171-194 | After the monitor's steps the supervisor is stopped, holds nothing, has blank paths and `Error` equal to the wait result, and keeps the invariant. |
| QemuLifecycle.KillConsistent | engines/qemu/vm.go:197-205 | A kill request keeps a running supervisor within the invariant. |
| QemuEngine.ExitAtCapacity | engines/qemu/vm.go:188-193 | With a single-segment pool, once `Done` is observed after an exit, the error is the wait result, the VNC path is "", and the next `Network()` succeeds. After a late `Kill` and a late `SetHTTPHandler`, the VNC path and the error read the same. |
| QemuEngine.SpawnFailureKeepsLease | engines/qemu/vm.go:164-168 | After a spawn failure, `Done` is closed with the spawn error, the network is still leased, and the VNC path keeps its non-empty value. |
| NetworkPool.CountBounded | engines/qemu/network/pool_test.go:29-30 | The in-use count never exceeds the number of slots. |
| NetworkPool.CountFull | engines/qemu/network/pool_test.go:29-30 | The count equals the capacity exactly when every slot is in use. |
| NetworkPool.CountEmpty | engines/qemu/network/pool_test.go:44-50 | The count is zero exactly when no slot is in use. |
| NetworkPool.CountUpdate | engines/qemu/network/pool_test.go:23-42 | Setting a free slot in use adds one to the count, and freeing a used slot subtracts one. |
| NetworkPool.FirstFree | engines/qemu/network/pool_test.go:23-30 | There is no free slot exactly when all are in use. Otherwise the slot found is free and every earlier one is in use. |
| NetworkPool.FirstFreeIffFull | engines/qemu/network/pool_test.go:29-30 | A free slot exists exactly when the in-use count is below capacity. |
| NetworkPool.FirstError | engines/qemu/network/pool_test.go:49-50 | The result is no error exactly when every teardown succeeded; otherwise it is the first error. |
| NetworkPool.Pool.constructor | engines/qemu/network/pool_test.go:20-21 | `NewPool(N)` has capacity N, one segment per tap device, and every slot free. |
| NetworkPool.Pool.Network | engines/qemu/network/pool_test.go:23-30 | Fails with exactly `AllNetworksInUse`, changing nothing, iff every slot is in use. Otherwise it marks the first free slot and returns its segment, and the count goes up by one. |
| NetworkPool.Network.Release | engines/qemu/network/pool_test.go:40-46 | Clears the segment's slot flag, and only that flag; the count goes down by one and the handler is dropped. |
| NetworkPool.Pool.Dispose | engines/qemu/network/pool_test.go:44-50 | With every lease back, the pool is disposed and the first teardown error is returned, or none. |
| NetworkPool.CreateDestroyRound | engines/qemu/network/pool_test.go:20-50 | One round on a 3-slot pool: three leases succeed, the fourth fails with `AllNetworksInUse`, a lease succeeds again after one release, and, with clean teardowns, `Dispose` returns no error. |
| NetworkPool.LeaseThree | engines/qemu/network/pool_test.go:23-28 | On an empty pool of three, three `Network()` calls succeed on three distinct slots, all now in use. |
| NetworkPool.OverflowAndReuse | engines/qemu/network/pool_test.go:29-42 | With all three slots in use, `Network()` fails with `AllNetworksInUse`; after one release the next `Network()` succeeds on the released slot, and all slots are in use again. |
| NetworkPool.ReleaseAllAndDispose | engines/qemu/network/pool_test.go:44-50 | Releasing the three leases lets `Dispose` succeed with no error. |
| NetworkPool.TestNetworkCreateDestroy | engines/qemu/network/pool_test.go:17-53 | Both rounds, each on a new pool, observe exactly the same outcome. |

## Left out

- Process control is not modelled: `exec.Command`, `qemu.Start()`, `qemu.Wait()` and `Process.Kill()`. `Start` receives the spawn result and `OnExit` the wait result as parameters. A kill is only recorded in the ghost trace.
- The goroutine, the mutex and the `qemuDone` channel become sequential calls. `OnExit` is the monitor, called once the process has exited, and `Done` is a boolean. Interleavings of `Kill`, `VNCSocket` or `SetHTTPHandler` with a running monitor are not modelled.
- `os.Remove` of the socket files is best-effort file I/O. Only the blanking of the stored paths, and a SocketsRemoved step in the trace, are modelled.
- `slugid.V4()` is randomness: the two socket ids are constructor parameters.
- Go map iteration order in `arg` is unspecified. The options are a sequence: the `arg` lemmas hold for every sequence, and `CommandLine` lists each map in the order of its Go literal. The part-level facts the wiring relies on are proved for every order (`ItemInAnyOrder` and the three `...PartsAnyOrder` lemmas), but the wiring lemmas themselves are stated for the literal's order.
- Socket paths, the disk file, the NIC model and the MAC are put into QEMU option values without escaping commas (QEMU reads `,,` as a literal comma). The wiring lemmas therefore require these values to be comma-free. `VncDisplayPartIff` shows that a comma in the VNC socket path breaks `unix:<path>` apart. An escaping command line is not modelled.
- QemuEngine.JoinPath: models `filepath.Join` for a relative file name without `Clean`'s normalisation (duplicate separators, `.` and `..`).
- `exec.Command("qemu-system-x86_64", ...)` is not run. The VM keeps the argument list as `args`.
- engines/qemu/network/pool.go and network.go are not part of this model. `Network.NetDev` is assumed to render a `tap` backend `tap,id=<id>,ifname=<tap device>,script=no,downscript=no`.
  - Creating tap devices, bridges and the metadata listener is host I/O. The pool receives the tap device names, and `Dispose` receives each slot's teardown outcome.
- NetworkPool.Pool.Network: picks the lowest free slot. The test does not say which free slot is chosen, so this choice is the model's.
- The HTTP request to the metadata address answered with 403 needs real networking, and its handler logic is not in the modelled files.
- Misuses become preconditions:
  - `Kill` before `Start`, where `Process` is nil;
  - a second `Start`, which panics;
  - releasing a segment twice;
  - disposing with leases outstanding.
- codegen/schema-gen/main.go is a file-generation tool, and the vendored scheduler event types are declarations only. Neither is modelled.
