/**
  The QEMU virtual-machine supervisor (`virtualMachine`, engines/qemu/vm.go):
  it owns one QEMU process, the network segment and image instance it was
  given, and the two socket paths it generated; it closes `Done` once the
  process is gone, after giving every resource back.

  The process itself is not modelled: `Start` receives what `qemu.Start()`
  returned and `OnExit` what `qemu.Wait()` returned. The monitor goroutine
  becomes the method `OnExit`, run once the process has exited, and the
  mutex disappears with the concurrency. `Done` is the field `done`
  (closed = true). A ghost trace records the observable steps in order.
*/
module QemuEngine {
  import opened Wrappers
  import opened QemuOptions
  import opened NetworkPool
  import opened Image
  import opened QemuLifecycle

  /**
    `filepath.Join(dir, name)` for a single file name: `name` under `dir`,
    with one separator between them.
  */
  function JoinPath(dir: string, name: string): (path: string)
    ensures |name| <= |path| && path[|path| - |name|..] == name
    ensures dir == "" ==> path == name
    ensures dir != "" ==> |dir| <= |path| && |name| < |path| && path[..|dir|] == dir && path[|path| - |name| - 1] == '/'
  {
    if dir == "" then name
    else if dir[|dir| - 1] == '/' then dir + name
    else dir + "/" + name
  }

  /** The path of a socket named by a fresh id under the socket folder. */
  function SocketPath(socketFolder: string, id: string): (path: string)
    ensures path != ""
    ensures |path| >= 5 && path[|path| - 5..] == ".sock"
  {
    JoinPath(socketFolder, id + ".sock")
  }

  /** `virtualMachine`: one QEMU run and the resources it holds. */
  class VirtualMachine {
    /** Whether `Start` has been called. */
    var started: bool
    /** The leased network segment; nil once the monitor has released it. */
    var network: Network?
    /** The image instance; nil once the monitor has released it. */
    var image: Instance?
    /** Path of the VNC socket; "" once removed. */
    var vncSocket: string
    /** Path of the QMP socket; "" once removed. */
    var qmpSocket: string
    /** The argument list of the `qemu-system-x86_64` command built at construction. */
    const args: seq<string>
    /** `Done`: closed when the virtual machine is done. */
    var done: bool
    /** `Error`, to be read after `Done` is closed. */
    var error: Option<Error>

    /** The socket paths generated at construction. */
    ghost const vncPath: string
    ghost const qmpPath: string
    /** Where the run is, and what has happened so far. */
    ghost var phase: Phase
    ghost var events: seq<Event>

    ghost predicate Valid()
      reads this
    {
      Consistent(phase, events, started, done, error, network != null, image != null,
                 vncSocket, qmpSocket, vncPath, qmpPath)
    }

    /**
      `newVirtualMachine`: two socket paths under `socketFolder` named by
      fresh ids, the given network and image, not started, `Done` open, and
      the command line wired to all of them. Nothing is released or spawned.
    */
    constructor (image: Instance, network: Network, socketFolder: string, vncId: string, qmpId: string)
      ensures Valid() && phase == Constructed
      ensures this.image == image && this.network == network
      ensures vncSocket == SocketPath(socketFolder, vncId) && qmpSocket == SocketPath(socketFolder, qmpId)
      ensures !started && !done && error == None
      ensures args == CommandLine(vncSocket, qmpSocket, image.diskFile, image.nicDevice, image.mac,
                                  network.NetDev(NETDEV_ID))
    {
      var vnc := SocketPath(socketFolder, vncId);
      var qmp := SocketPath(socketFolder, qmpId);
      vncSocket := vnc;
      qmpSocket := qmp;
      vncPath := vnc;
      qmpPath := qmp;
      this.network := network;
      this.image := image;
      args := CommandLine(vnc, qmp, image.diskFile, image.nicDevice, image.mac, network.NetDev(NETDEV_ID));
      started := false;
      done := false;
      error := None;
      phase := Constructed;
      events := [];
      ConstructedConsistent(vnc, qmp);
    }

    /**
      `SetHTTPHandler`: forwards the handler to the network while the VM
      still holds it, and does nothing once the network has been released.
    */
    method SetHTTPHandler(h: Handler)
      requires Valid()
      modifies network
      ensures Valid() && unchanged(this)
      ensures network != null ==> network.handler == Some(h)
      ensures phase == Stopped ==> network == null
    {
      if network != null {
        network.SetHandler(h);
      }
    }

    /**
      `Start`, the first and only time: marks the VM started and spawns
      QEMU. A spawn error becomes `Error` and closes `Done` at once, with no
      monitor and nothing released; otherwise the monitor waits for exit.
    */
    method Start(spawnErr: Option<Error>)
      requires Valid() && !started
      modifies this
      ensures Valid() && started
      ensures network == old(network) && image == old(image)
      ensures vncSocket == old(vncSocket) && qmpSocket == old(qmpSocket)
      ensures error == spawnErr
      ensures done <==> spawnErr.Some?
      ensures phase == (if spawnErr.Some? then SpawnFailure else Running)
      ensures events == old(events) +
        (if spawnErr.Some? then [Started, SpawnFailed(spawnErr.value), DoneClosed] else [Started, Spawned])
    {
      assert events == [];
      started := true;
      error := spawnErr;
      StartConsistent(spawnErr, vncPath, qmpPath);
      if spawnErr.Some? {
        done := true;
        events, phase := [Started, SpawnFailed(spawnErr.value), DoneClosed], SpawnFailure;
        return;
      }
      events, phase := [Started, Spawned], Running;
    }

    /**
      The monitor, once `qemu.Wait()` has returned `waitErr`: records it as
      `Error`, releases the network and the image and clears both, removes
      both sockets and blanks their paths, and only then closes `Done`.
    */
    method OnExit(waitErr: Option<Error>)
      requires Valid() && phase == Running
      requires network.Leased() && !image.released
      modifies this, network, network.pool.inUse, image
      ensures Valid() && phase == Stopped && done
      ensures error == waitErr
      ensures network == null && image == null && vncSocket == "" && qmpSocket == ""
      ensures old(network).pool.Valid()
      ensures old(network).pool.inUse[..] == old(network.pool.inUse[..])[old(network).slot := false]
      ensures old(network).handler == None
      ensures old(image).released
      ensures events == old(events) + [Exited(waitErr)] + [NetworkReleased] + [ImageReleased]
                        + [SocketsRemoved(old(vncSocket), old(qmpSocket))] + [DoneClosed]
    {
      ghost var run := events;
      error := waitErr;
      events := events + [Exited(waitErr)];
      ReleaseResources();
      CloseDone(run);
    }

    /**
      The monitor's last steps once both handles are released: remove both
      sockets and blank their paths, then close `Done`, completing the trace.
    */
    method CloseDone(ghost run: seq<Event>)
      requires RunTrace(run) && started && !done && phase == Running
      requires vncPath != "" && qmpPath != "" && vncSocket == vncPath && qmpSocket == qmpPath
      requires network == null && image == null
      requires events == run + [Exited(error)] + [NetworkReleased] + [ImageReleased]
      modifies this`vncSocket, this`qmpSocket, this`done, this`events, this`phase
      ensures Valid() && phase == Stopped && done
      ensures vncSocket == "" && qmpSocket == ""
      ensures events == old(events) + [SocketsRemoved(vncPath, qmpPath)] + [DoneClosed]
    {
      vncSocket := "";
      qmpSocket := "";
      events := events + [SocketsRemoved(vncPath, qmpPath)];
      done := true;
      events := events + [DoneClosed];
      phase := Stopped;
      StoppedConsistent(run, error, vncPath, qmpPath);
    }

    /**
      The monitor's releases, in order: the network first, then the image;
      each handle is cleared after its release.
    */
    method ReleaseResources()
      requires network != null && image != null
      requires network.Leased() && !image.released
      modifies this`network, this`image, this`events, network, network.pool.inUse, image
      ensures network == null && image == null
      ensures events == old(events) + [NetworkReleased] + [ImageReleased]
      ensures old(network).pool.Valid()
      ensures old(network).pool.inUse[..] == old(network.pool.inUse[..])[old(network).slot := false]
      ensures old(network).handler == None
      ensures old(image).released
    {
      network.Release();
      events := events + [NetworkReleased];
      network := null;
      image.Release();
      events := events + [ImageReleased];
      image := null;
    }

    /**
      `Kill`, after `Start`: once `Done` is closed it does nothing; before,
      it only asks the process to die. It never releases anything itself.
    */
    method Kill()
      requires Valid() && started
      modifies this`events
      ensures Valid()
      ensures events == if old(done) then old(events) else old(events) + [KillRequested]
    {
      if done {
        return;
      }
      KillConsistent(events, vncPath, qmpPath);
      events := events + [KillRequested];
    }

    /** `VNCSocket`: the VNC socket path, or "" once the VM is no longer available. */
    method VNCSocket() returns (path: string)
      requires Valid()
      ensures path == vncSocket
      ensures path == "" <==> phase == Stopped
      ensures phase != Stopped ==> path == vncPath
    {
      path := vncSocket;
    }
  }

  /**
    A one-segment pool whose only segment is leased to a new supervisor
    over a new image instance, as the engine sets up a task.
  */
  method NewTaskVM(tapDevice: string, diskFile: string, nicDevice: string, mac: string,
                   socketFolder: string, vncId: string, qmpId: string)
    returns (pool: Pool, vm: VirtualMachine)
    ensures fresh(pool) && fresh(pool.inUse) && fresh(vm)
    ensures pool.Valid() && !pool.disposed && pool.capacity == 1
    ensures vm.Valid() && vm.phase == Constructed && !vm.started
    ensures vm.network != null && vm.network.pool == pool && vm.network.Leased()
    ensures vm.image != null && fresh(vm.image) && !vm.image.released
  {
    pool := new Pool([tapDevice]);
    var lease := pool.Network();
    var img := new Instance(diskFile, nicDevice, mac);
    vm := new VirtualMachine(img, lease.value, socketFolder, vncId, qmpId);
  }

  /**
    A task at full capacity: one segment, a VM whose QEMU exits with
    `waitErr`. As soon as `Done` is observed the error is there, the VNC
    socket is gone, and the next `Network()` succeeds; after a late `Kill`
    and a late `SetHTTPHandler` the VNC path and the error read the same. The image, paths and ids are
    arbitrary.
  */
  method ExitAtCapacity(tapDevice: string, diskFile: string, nicDevice: string, mac: string,
                        socketFolder: string, vncId: string, qmpId: string, waitErr: Error)
    returns (leasedAgain: bool, vnc: string, err: Option<Error>, vncLate: string, errLate: Option<Error>)
    ensures leasedAgain && vnc == "" && err == Some(waitErr)
    ensures vncLate == vnc && errLate == err
  {
    var pool, vm := NewTaskVM(tapDevice, diskFile, nicDevice, mac, socketFolder, vncId, qmpId);
    vm.Start(None);
    vm.OnExit(Some(waitErr));
    assert pool.inUse[..] == [false] && [false][..0] == [];
    var next := pool.Network();
    leasedAgain := next.Success?;
    vnc := vm.VNCSocket();
    err := vm.error;
    vm.Kill();
    vm.SetHTTPHandler(Handler("metadata"));
    vncLate := vm.VNCSocket();
    errLate := vm.error;
  }

  /**
    A spawn failure with `spawnErr`: `Done` is closed at once with that
    error, the network stays leased and the socket paths keep their values.
  */
  method SpawnFailureKeepsLease(tapDevice: string, diskFile: string, nicDevice: string, mac: string,
                                socketFolder: string, vncId: string, qmpId: string, spawnErr: Error)
    returns (done: bool, err: Option<Error>, stillLeased: bool, vnc: string, vncBefore: string)
    ensures done && err == Some(spawnErr) && stillLeased
    ensures vnc == vncBefore && vnc != ""
  {
    var pool, vm := NewTaskVM(tapDevice, diskFile, nicDevice, mac, socketFolder, vncId, qmpId);
    vncBefore := vm.VNCSocket();
    vm.Start(Some(spawnErr));
    done := vm.done;
    err := vm.error;
    stillLeased := pool.inUse[0];
    vnc := vm.VNCSocket();
    vm.Kill();
  }
}
