/**
  The lifecycle of a QEMU supervisor (engines/qemu/vm.go) as a trace of
  observable steps: which traces each phase admits, how the supervisor's
  fields agree with its phase, and the orderings every trace obeys.
*/
module QemuLifecycle {
  import opened Wrappers

  /** Observable steps of a supervisor, in the order they happen. */
  datatype Event =
    | Started                           // `started` set, under the lock
    | SpawnFailed(err: Error)           // `qemu.Start()` failed
    | Spawned                           // `qemu.Start()` succeeded; the monitor waits
    | KillRequested                     // `Kill()` sent a kill to the process
    | Exited(waitErr: Option<Error>)    // `qemu.Wait()` returned
    | NetworkReleased                   // `network.Release()`
    | ImageReleased                     // `image.Release()`
    | SocketsRemoved(vnc: string, qmp: string)  // socket files removed, paths cleared
    | DoneClosed                        // `close(qemuDone)`

  /** Where a supervisor is in its single run. */
  datatype Phase = Constructed | Running | SpawnFailure | Stopped

  /** A run of kill requests. */
  ghost predicate Kills(ks: seq<Event>)
  {
    forall i :: 0 <= i < |ks| ==> ks[i] == KillRequested
  }

  /**
    The traces a supervisor produces in each phase: nothing before `Start`;
    a failed spawn followed at once by `Done`; or a spawn, any number of
    kill requests, and, once the process exits, the wait result, the
    network, image and socket releases, and `Done` last.
  */
  ghost predicate TraceOf(phase: Phase, t: seq<Event>)
  {
    match phase
    case Constructed => t == []
    case SpawnFailure => |t| == 3 && t[0] == Started && t[1].SpawnFailed? && t[2] == DoneClosed
    case Running => RunTrace(t)
    case Stopped =>
      var n := |t|;
      && n >= 7 && RunTrace(t[..n - 5])
      && t[n - 5].Exited? && t[n - 4] == NetworkReleased && t[n - 3] == ImageReleased
      && t[n - 2].SocketsRemoved? && t[n - 1] == DoneClosed
  }

  /** The trace of a spawned process that has not exited yet. */
  ghost predicate RunTrace(t: seq<Event>)
  {
    |t| >= 2 && t[0] == Started && t[1] == Spawned && Kills(t[2..])
  }

  /** Whether `Done` has been closed in this phase. */
  predicate IsDone(phase: Phase)
  {
    phase == SpawnFailure || phase == Stopped
  }

  /** Before the process exits, a trace holds only the start, the spawn and kill requests. */
  lemma RunTraceSteps(r: seq<Event>)
    requires RunTrace(r)
    ensures forall i :: 0 <= i < |r| ==> r[i] == Started || r[i] == Spawned || r[i] == KillRequested
  {
    forall i | 2 <= i < |r|
      ensures r[i] == KillRequested
    {
      assert r[i] == r[2..][i - 2];
    }
  }

  /** In a stopped trace, everything before the exit is a start, the spawn or a kill request. */
  lemma StoppedSteps(t: seq<Event>)
    requires TraceOf(Stopped, t)
    ensures forall i :: 0 <= i < |t| - 5 ==> t[i] == Started || t[i] == Spawned || t[i] == KillRequested
  {
    var run := t[..|t| - 5];
    RunTraceSteps(run);
    assert forall i :: 0 <= i < |t| - 5 ==> t[i] == run[i];
  }

  /** `Done` is closed exactly once, as the last step, and only in a finished phase. */
  lemma DoneOnceAndLast(phase: Phase, t: seq<Event>)
    requires TraceOf(phase, t)
    ensures DoneClosed in t <==> IsDone(phase)
    ensures forall i :: 0 <= i < |t| && t[i] == DoneClosed ==> i == |t| - 1
  {
    match phase
    case Constructed =>
    case Running =>
      RunTraceSteps(t);
    case SpawnFailure =>
    case Stopped =>
      StoppedSteps(t);
      assert t[|t| - 1] == DoneClosed;
  }

  /**
    After a normal exit the network and the image have each been released
    exactly once, and both, with the sockets, before `Done` was closed.
  */
  lemma ReleasedBeforeDone(t: seq<Event>)
    requires TraceOf(Stopped, t)
    ensures exists i :: 0 <= i < |t| - 1 && t[i] == NetworkReleased
    ensures exists i :: 0 <= i < |t| - 1 && t[i] == ImageReleased
    ensures exists i :: 0 <= i < |t| - 1 && t[i].SocketsRemoved?
    ensures forall i, j :: 0 <= i < j < |t| && t[i] == NetworkReleased ==> t[j] != NetworkReleased
    ensures forall i, j :: 0 <= i < j < |t| && t[i] == ImageReleased ==> t[j] != ImageReleased
  {
    var n := |t|;
    StoppedSteps(t);
    assert t[n - 4] == NetworkReleased && t[n - 3] == ImageReleased && t[n - 2].SocketsRemoved?;
  }

  /** A failed spawn releases nothing: the network, image and sockets stay with the supervisor. */
  lemma SpawnFailureReleasesNothing(t: seq<Event>)
    requires TraceOf(SpawnFailure, t)
    ensures NetworkReleased !in t && ImageReleased !in t
    ensures forall i :: 0 <= i < |t| ==> !t[i].SocketsRemoved? && !t[i].Exited?
  {
    assert t == [Started, t[1], DoneClosed];
  }

  /**
    Only the monitor gives resources back: in every trace each release
    directly follows the process's exit, never a kill request.
  */
  lemma ReleaseOnlyAfterExit(phase: Phase, t: seq<Event>)
    requires TraceOf(phase, t)
    ensures forall i :: 0 <= i < |t| && t[i] == NetworkReleased ==> i >= 1 && t[i - 1].Exited?
    ensures forall i :: 0 <= i < |t| && t[i] == ImageReleased ==> i >= 2 && t[i - 2].Exited?
  {
    if phase == Running {
      RunTraceSteps(t);
    } else if phase == Stopped {
      var n := |t|;
      var run := t[..n - 5];
      RunTraceSteps(run);
      assert forall i :: 0 <= i < n - 5 ==> t[i] == run[i];
    }
  }

  /** The monitor's five steps turn a running trace into a stopped one. */
  lemma ExitCompletesRun(run: seq<Event>, waitErr: Option<Error>, vnc: string, qmp: string)
    requires RunTrace(run)
    ensures var t := run + [Exited(waitErr), NetworkReleased, ImageReleased, SocketsRemoved(vnc, qmp), DoneClosed];
      && TraceOf(Stopped, t)
      && t[|t| - 5] == Exited(waitErr) && t[|t| - 2] == SocketsRemoved(vnc, qmp)
  {
    var t := run + [Exited(waitErr), NetworkReleased, ImageReleased, SocketsRemoved(vnc, qmp), DoneClosed];
    assert t[..|t| - 5] == run;
  }

  /** A kill request keeps a running supervisor running and never adds a release. */
  lemma KillKeepsRunning(t: seq<Event>)
    requires TraceOf(Running, t)
    ensures TraceOf(Running, t + [KillRequested])
    ensures multiset(t + [KillRequested])[NetworkReleased] == multiset(t)[NetworkReleased]
    ensures multiset(t + [KillRequested])[ImageReleased] == multiset(t)[ImageReleased]
  {
    assert (t + [KillRequested])[2..] == t[2..] + [KillRequested];
  }

  /**
    How a supervisor's fields agree with its phase and trace: started once
    out of `Constructed`; `Done` closed exactly in a finished phase; the
    network, the image and both socket paths held until the monitor has
    run and all given up afterwards, the trace recording the wait result
    and the removed paths; and `Error` the spawn error after a failed
    spawn, nil before anything failed.
  */
  ghost predicate Consistent(phase: Phase, events: seq<Event>, started: bool, done: bool, error: Option<Error>,
                             holdsNetwork: bool, holdsImage: bool, vncSocket: string, qmpSocket: string,
                             vncPath: string, qmpPath: string)
  {
    && TraceOf(phase, events)
    && (started <==> phase != Constructed)
    && (done <==> IsDone(phase))
    && vncPath != "" && qmpPath != ""
    && (phase != Stopped ==>
          && holdsNetwork && holdsImage
          && vncSocket == vncPath && qmpSocket == qmpPath)
    && (phase == Stopped ==>
          && !holdsNetwork && !holdsImage && vncSocket == "" && qmpSocket == ""
          && events[|events| - 5] == Exited(error)
          && events[|events| - 2] == SocketsRemoved(vncPath, qmpPath))
    && (phase == SpawnFailure ==> error == Some(events[1].err))
    && (phase == Constructed || phase == Running ==> error == None)
  }

  /** A new supervisor, holding everything and with nothing done yet, is consistent. */
  lemma ConstructedConsistent(vncPath: string, qmpPath: string)
    requires vncPath != "" && qmpPath != ""
    ensures Consistent(Constructed, [], false, false, None, true, true, vncPath, qmpPath, vncPath, qmpPath)
  {
  }

  /** `Start` leaves a fresh supervisor consistent, whether or not the spawn failed. */
  lemma StartConsistent(spawnErr: Option<Error>, vncPath: string, qmpPath: string)
    requires vncPath != "" && qmpPath != ""
    ensures spawnErr.Some? ==>
      Consistent(SpawnFailure, [Started, SpawnFailed(spawnErr.value), DoneClosed], true, true, spawnErr,
                 true, true, vncPath, qmpPath, vncPath, qmpPath)
    ensures spawnErr.None? ==>
      Consistent(Running, [Started, Spawned], true, false, spawnErr, true, true, vncPath, qmpPath, vncPath, qmpPath)
  {
    assert [Started, Spawned][2..] == [];
  }

  /** The monitor's steps leave a running supervisor consistent and stopped. */
  lemma StoppedConsistent(run: seq<Event>, waitErr: Option<Error>, vncPath: string, qmpPath: string)
    requires RunTrace(run) && vncPath != "" && qmpPath != ""
    ensures Consistent(Stopped, run + [Exited(waitErr)] + [NetworkReleased] + [ImageReleased]
                                + [SocketsRemoved(vncPath, qmpPath)] + [DoneClosed],
                       true, true, waitErr, false, false, "", "", vncPath, qmpPath)
  {
    ExitCompletesRun(run, waitErr, vncPath, qmpPath);
    assert run + [Exited(waitErr)] + [NetworkReleased] + [ImageReleased] + [SocketsRemoved(vncPath, qmpPath)] + [DoneClosed]
        == run + [Exited(waitErr), NetworkReleased, ImageReleased, SocketsRemoved(vncPath, qmpPath), DoneClosed];
  }

  /** A kill request leaves a running supervisor consistent. */
  lemma KillConsistent(events: seq<Event>, vncPath: string, qmpPath: string)
    requires Consistent(Running, events, true, false, None, true, true, vncPath, qmpPath, vncPath, qmpPath)
    ensures Consistent(Running, events + [KillRequested], true, false, None, true, true, vncPath, qmpPath, vncPath, qmpPath)
  {
    KillKeepsRunning(events);
  }
}
