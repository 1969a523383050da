/**
  The QEMU command line that `newVirtualMachine` assembles
  (engines/qemu/vm.go): the `arg` helper that renders a `-device`-style
  option `kind,k=v,k=v`, and the full argument list handed to
  `qemu-system-x86_64`.

  Go iterates the option map in an unspecified order. Here the options are
  a sequence: the lemmas about `arg` hold for every sequence, the command
  line lists each map in the order of its Go literal, and the `...AnyOrder`
  lemmas show that the parts the wiring relies on are there in every order.
*/
module QemuOptions {

  /** One `key=value` entry of an option. */
  type KeyValue = (string, string)

  /** Id under which the network backend is declared and referred to. */
  const NETDEV_ID := "netdev-0"
  /** Id under which the boot drive is declared and referred to. */
  const BOOT_DISK_ID := "boot-disk"
  /** Id of the character device that carries the QMP channel. */
  const QMP_CHARDEV_ID := "qmp-socket"

  /** The text `k=v` that `arg` appends for one entry. */
  function Item(k: string, v: string): (r: string)
    ensures '=' in r
  {
    assert (k + "=" + v)[|k|] == '=';
    k + "=" + v
  }

  /**
    What `arg(kind, opts)` returns, stated the way its loop builds it: the
    result so far, a comma unless the result so far is empty, then the
    next `k=v`.
  */
  function Arg(kind: string, opts: seq<KeyValue>): (r: string)
    ensures r == "" <==> kind == "" && opts == []
    decreases |opts|
  {
    if opts == [] then kind
    else
      var prev := Arg(kind, opts[..|opts| - 1]);
      var last := opts[|opts| - 1];
      (if prev != "" then prev + "," else prev) + Item(last.0, last.1)
  }

  /** The `arg` closure of `newVirtualMachine`: a loop appending to `result`. */
  method BuildArg(kind: string, opts: seq<KeyValue>) returns (result: string)
    ensures result == Arg(kind, opts)
  {
    result := kind;
    var i := 0;
    while i < |opts|
      invariant 0 <= i <= |opts|
      invariant result == Arg(kind, opts[..i])
    {
      if result != "" {
        result := result + ",";
      }
      result := result + opts[i].0 + "=" + opts[i].1;
      assert opts[..i + 1][..i] == opts[..i];
      i := i + 1;
    }
    assert opts[..i] == opts;
  }

  /** The `k=v` items, one per option, in order. */
  function Items(opts: seq<KeyValue>): (r: seq<string>)
    ensures |r| == |opts|
    ensures forall i :: 0 <= i < |opts| ==> r[i] == Item(opts[i].0, opts[i].1)
  {
    seq(|opts|, i requires 0 <= i < |opts| => Item(opts[i].0, opts[i].1))
  }

  /** The comma-separated parts of `arg(kind, opts)`: `kind` unless empty, then the items. */
  function Parts(kind: string, opts: seq<KeyValue>): seq<string>
  {
    (if kind == "" then [] else [kind]) + Items(opts)
  }

  /** Reference rendering: the parts joined by single commas. */
  function Join(parts: seq<string>): string
    decreases |parts|
  {
    if |parts| == 0 then ""
    else if |parts| == 1 then parts[0]
    else Join(parts[..|parts| - 1]) + "," + parts[|parts| - 1]
  }

  /** Index of the last comma of `s`, or -1 when there is none. */
  function LastComma(s: string): (r: int)
    ensures -1 <= r < |s|
    ensures r >= 0 ==> s[r] == ','
    ensures forall j :: r < j < |s| ==> s[j] != ','
  {
    if s == [] then -1
    else if s[|s| - 1] == ',' then |s| - 1
    else LastComma(s[..|s| - 1])
  }

  /** The pieces of `s` between commas; the inverse of `Join` on comma-free parts. */
  function Split(s: string): seq<string>
    decreases |s|
  {
    var c := LastComma(s);
    if c < 0 then [s] else Split(s[..c]) + [s[c + 1..]]
  }

  /** No piece of a split holds a comma. */
  lemma {:induction false} SplitPartsCommaFree(s: string)
    ensures forall p :: p in Split(s) ==> ',' !in p
    decreases |s|
  {
    var c := LastComma(s);
    if c >= 0 {
      SplitPartsCommaFree(s[..c]);
      var last := s[c + 1..];
      forall j | 0 <= j < |last|
        ensures last[j] != ','
      {
        assert last[j] == s[c + 1 + j];
      }
    }
  }

  /** The parts of `arg` are never empty: `kind` is left out when empty, and every item holds `=`. */
  lemma PartsNonEmpty(kind: string, opts: seq<KeyValue>)
    ensures forall p :: p in Parts(kind, opts) ==> p != ""
  {
    forall p | p in Parts(kind, opts)
      ensures p != ""
    {
      if p !in Items(opts) {
        assert p == kind && kind != "";
      }
    }
  }

  /** Joining non-empty parts is empty exactly when there are none. */
  lemma {:induction false} JoinEmpty(parts: seq<string>)
    requires forall p :: p in parts ==> p != ""
    ensures Join(parts) == "" <==> |parts| == 0
  {
    if |parts| == 1 {
      assert parts[0] in parts;
    } else if |parts| > 1 {
      var init := parts[..|parts| - 1];
      assert Join(parts) == Join(init) + "," + parts[|parts| - 1];
      assert |Join(parts)| > 0;
    }
  }

  /**
    `arg(kind, opts)` is `kind` followed by one `k=v` per option, separated
    by single commas, with no leading comma when `kind` is empty.
  */
  lemma {:induction false} ArgIsJoin(kind: string, opts: seq<KeyValue>)
    ensures Arg(kind, opts) == Join(Parts(kind, opts))
    decreases |opts|
  {
    if opts == [] {
      assert Parts(kind, opts) == (if kind == "" then [] else [kind]);
    } else {
      var n := |opts|;
      var init := opts[..n - 1];
      var last := opts[n - 1];
      ArgIsJoin(kind, init);
      PartsNonEmpty(kind, init);
      JoinEmpty(Parts(kind, init));
      assert Parts(kind, opts) == Parts(kind, init) + [Item(last.0, last.1)];
      var ps := Parts(kind, opts);
      assert ps[..|ps| - 1] == Parts(kind, init);
      if Parts(kind, init) == [] {
        assert ps == [Item(last.0, last.1)];
      }
    }
  }

  /** Splitting a comma-free string gives the string back. */
  lemma SplitNoComma(s: string)
    requires ',' !in s
    ensures Split(s) == [s]
  {
  }

  /** Splitting at the last comma: the text after it is the last piece. */
  lemma SplitLast(front: string, last: string)
    requires ',' !in last
    ensures Split(front + "," + last) == Split(front) + [last]
  {
    var s := front + "," + last;
    assert s[|front|] == ',';
    forall j | |front| < j < |s|
      ensures s[j] != ','
    {
      assert s[j] == last[j - |front| - 1];
    }
    assert LastComma(s) == |front|;
    assert s[..|front|] == front;
    assert s[|front| + 1..] == last;
  }

  /** `Split` undoes `Join` when no part contains a comma. */
  lemma {:induction false} SplitJoin(parts: seq<string>)
    requires |parts| >= 1
    requires forall p :: p in parts ==> ',' !in p
    ensures Split(Join(parts)) == parts
    decreases |parts|
  {
    if |parts| == 1 {
      assert parts[0] in parts;
      SplitNoComma(parts[0]);
    } else {
      var init := parts[..|parts| - 1];
      var last := parts[|parts| - 1];
      assert last in parts;
      assert forall p :: p in init ==> p in parts;
      SplitJoin(init);
      SplitLast(Join(init), last);
      assert parts == init + [last];
    }
  }

  /** Whether no key or value contains a comma (true of every option `newVirtualMachine` builds). */
  predicate CommaFree(opts: seq<KeyValue>)
  {
    forall i :: 0 <= i < |opts| ==> ',' !in opts[i].0 && ',' !in opts[i].1
  }

  /**
    Reading `arg`'s output back: when no key, value or kind holds a comma,
    splitting the output at commas yields exactly `kind` (if non-empty) and
    one `k=v` per option, so there is no empty part, leading or trailing.
  */
  lemma ArgSplit(kind: string, opts: seq<KeyValue>)
    requires ',' !in kind && CommaFree(opts)
    requires kind != "" || opts != []
    ensures Split(Arg(kind, opts)) == Parts(kind, opts)
  {
    ArgIsJoin(kind, opts);
    var ps := Parts(kind, opts);
    forall p | p in ps
      ensures ',' !in p
    {
      if p in Items(opts) {
        var i :| 0 <= i < |opts| && Items(opts)[i] == p;
        assert p == opts[i].0 + "=" + opts[i].1;
      }
    }
    assert |ps| >= 1 by {
      if kind == "" {
        assert |Items(opts)| == |opts| > 0;
      }
    }
    SplitJoin(ps);
  }

  /**
    `arg` never ends in a separator: with options it ends in the last
    `k=v`; without, it is `kind` itself. It begins with `kind`, or, when
    `kind` is empty, directly with the first `k=v`.
  */
  lemma {:induction false} ArgEnds(kind: string, opts: seq<KeyValue>)
    ensures opts == [] ==> Arg(kind, opts) == kind
    ensures opts != [] ==>
      var last := Item(opts[|opts| - 1].0, opts[|opts| - 1].1);
      |last| <= |Arg(kind, opts)| && Arg(kind, opts)[|Arg(kind, opts)| - |last|..] == last
    ensures |kind| <= |Arg(kind, opts)| && Arg(kind, opts)[..|kind|] == kind
    ensures kind == "" && opts != [] ==>
      var first := Item(opts[0].0, opts[0].1);
      |first| <= |Arg(kind, opts)| && Arg(kind, opts)[..|first|] == first
    decreases |opts|
  {
    if opts != [] {
      var init := opts[..|opts| - 1];
      ArgEnds(kind, init);
      var prev := Arg(kind, init);
      var last := opts[|opts| - 1];
      var sep := if prev != "" then prev + "," else prev;
      assert Arg(kind, opts) == sep + Item(last.0, last.1);
      assert sep[..|kind|] == kind;
      if kind == "" && init == [] {
        assert prev == "";
      } else if kind == "" {
        assert init[0] == opts[0];
        var first := Item(opts[0].0, opts[0].1);
        assert sep[..|first|] == first;
      }
    }
  }

  /** Whether some occurrence of `flag` is immediately followed by exactly `value`. */
  predicate FlagIs(args: seq<string>, flag: string, value: string)
  {
    exists i :: 0 <= i < |args| - 1 && args[i] == flag && args[i + 1] == value
  }

  /** Whether some occurrence of `flag` is followed by a value whose comma-separated parts include `part`. */
  predicate FlagHas(args: seq<string>, flag: string, part: string)
  {
    exists i :: 0 <= i < |args| - 1 && args[i] == flag && part in Split(args[i + 1])
  }

  /** Whether one occurrence of `flag` is followed by a value that has both `part` and `other` among its comma-separated parts. */
  predicate FlagHasBoth(args: seq<string>, flag: string, part: string, other: string)
  {
    exists i :: 0 <= i < |args| - 1 && args[i] == flag && part in Split(args[i + 1]) && other in Split(args[i + 1])
  }

  /** One option of the command line followed by its value. */
  function Opt(flag: string, value: string): seq<string>
  {
    [flag, value]
  }

  /** The value QEMU's `-chardev` option gets for the QMP socket. */
  function QmpChardev(qmpSocket: string): string
  {
    "socket,id=" + QMP_CHARDEV_ID + ",path=" + qmpSocket + ",nowait,server=on"
  }

  /** The value of `-vnc`: a display listening on the unix socket `vncSocket`. */
  function VncDisplay(vncSocket: string): string
  {
    Arg("unix:" + vncSocket, VncOpts())
  }

  /** The `-vnc` options: the display is shared by every client. */
  function VncOpts(): seq<KeyValue>
  {
    [("share", "force-shared")]
  }

  /** Options of the NIC: attached to the declared netdev, with the image's MAC. */
  function NicOpts(mac: string): seq<KeyValue>
  {
    [("netdev", NETDEV_ID), ("id", "nic0"), ("mac", mac), ("bus", "pci.0"), ("addr", "0x5")]
  }

  /** Options of the boot drive: the image's disk file, declared as `boot-disk`. */
  function DriveOpts(diskFile: string): seq<KeyValue>
  {
    [("file", diskFile), ("if", "none"), ("id", BOOT_DISK_ID), ("cache", "unsafe"),
     ("aio", "native"), ("format", "qcow2"), ("werror", "report"), ("rerror", "report")]
  }

  /** Options of the virtio block device, which boots from `boot-disk`. */
  function DiskDeviceOpts(): seq<KeyValue>
  {
    [("scsi", "off"), ("bus", "pci.0"), ("addr", "0x8"), ("drive", BOOT_DISK_ID),
     ("id", "virtio-disk0"), ("bootindex", "1")]
  }

  /** Machine, memory, CPU, clock and boot options: fixed data. */
  function MachineArgs(): seq<string>
  {
    ["-name", "qemu-guest",
     "-machine", "pc-i440fx-2.1",
     "-m", "512",
     "-realtime", "mlock=off",
     "-smp", "cpus=2,sockets=2,cores=1,threads=1",
     "-uuid", "9372acf5-d413-4572-bc7b-7a1d2df57bab",
     "-no-user-config", "-nodefaults",
     "-rtc", "base=utc",
     "-boot", "menu=off,strict=on"]
  }

  /** Video, USB controller and balloon devices: fixed data. */
  function ControllerArgs(): seq<string>
  {
    ["-device", Arg("VGA", [("id", "video-0"), ("vgamem_mb", "64"), ("bus", "pci.0"), ("addr", "0x2")]),
     "-device", Arg("nec-usb-xhci", [("id", "usb"), ("bus", "pci.0"), ("addr", "0x3")]),
     "-device", Arg("virtio-balloon-pci", [("id", "balloon-0"), ("bus", "pci.0"), ("addr", "0x4")])]
  }

  /** The network backend and the NIC attached to it. */
  function NetworkArgs(netdev: string, nicDevice: string, mac: string): seq<string>
  {
    Opt("-netdev", netdev) + Opt("-device", Arg(nicDevice, NicOpts(mac)))
  }

  /** Sound card, keyboard and mouse: fixed data. */
  function InputArgs(): seq<string>
  {
    ["-device", Arg("AC97", [("id", "sound-0"), ("bus", "pci.0"), ("addr", "0x6")]),
     "-device", Arg("usb-kbd", [("id", "keyboard-0"), ("bus", "usb.0"), ("port", "0")]),
     "-device", Arg("usb-mouse", [("id", "mouse-0"), ("bus", "usb.0"), ("port", "1")])]
  }

  /** The display and QMP listeners on the VM's two sockets. */
  function ConsoleArgs(vncSocket: string, qmpSocket: string): seq<string>
  {
    Opt("-vnc", VncDisplay(vncSocket)) + Opt("-chardev", QmpChardev(qmpSocket)) + Opt("-qmp", QMP_CHARDEV_ID)
  }

  /** The boot drive and the block device that boots from it. */
  function DiskArgs(diskFile: string): seq<string>
  {
    Opt("-drive", Arg("", DriveOpts(diskFile))) + Opt("-device", Arg("virtio-blk-pci", DiskDeviceOpts()))
  }

  /**
    The argument list `newVirtualMachine` hands to `qemu-system-x86_64`,
    given the two socket paths, the image's disk file, NIC device model and
    MAC, and the network's `-netdev` value; the segments follow the order
    of the Go slice literal.
  */
  function CommandLine(vncSocket: string, qmpSocket: string, diskFile: string,
                       nicDevice: string, mac: string, netdev: string): (r: seq<string>)
    ensures |r| == 44
  {
    MachineArgs() + ControllerArgs() + NetworkArgs(netdev, nicDevice, mac)
      + InputArgs() + ConsoleArgs(vncSocket, qmpSocket) + DiskArgs(diskFile)
  }

  /**
    The fixed entries of the argument list: the machine and controller
    options, every flag, the input devices, the QMP id and the boot device.
  */
  lemma CommandLineFixed(vncSocket: string, qmpSocket: string, diskFile: string,
                         nicDevice: string, mac: string, netdev: string)
    ensures var x := CommandLine(vncSocket, qmpSocket, diskFile, nicDevice, mac, netdev);
      && x[..24] == MachineArgs() + ControllerArgs()
      && x[24] == "-netdev" && x[26] == "-device" && x[28..34] == InputArgs()
      && x[34] == "-vnc" && x[36] == "-chardev" && x[38] == "-qmp" && x[39] == QMP_CHARDEV_ID
      && x[40] == "-drive" && x[42] == "-device" && x[43] == Arg("virtio-blk-pci", DiskDeviceOpts())
  {
    var x := CommandLine(vncSocket, qmpSocket, diskFile, nicDevice, mac, netdev);
    var front := MachineArgs() + ControllerArgs();
    var network := NetworkArgs(netdev, nicDevice, mac);
    var back := ConsoleArgs(vncSocket, qmpSocket) + DiskArgs(diskFile);
    assert |front| == 24 && |network| == 4 && |back| == 10;
    assert x == front + network + InputArgs() + back;
    assert x[34..] == back;
  }

  /** Each value built from the VM's resources sits right after its flag. */
  lemma CommandLineValues(vncSocket: string, qmpSocket: string, diskFile: string,
                          nicDevice: string, mac: string, netdev: string)
    ensures var x := CommandLine(vncSocket, qmpSocket, diskFile, nicDevice, mac, netdev);
      && x[25] == netdev && x[27] == Arg(nicDevice, NicOpts(mac))
      && x[35] == VncDisplay(vncSocket) && x[37] == QmpChardev(qmpSocket)
      && x[41] == Arg("", DriveOpts(diskFile))
  {
    var x := CommandLine(vncSocket, qmpSocket, diskFile, nicDevice, mac, netdev);
    assert x == MachineArgs() + ControllerArgs() + NetworkArgs(netdev, nicDevice, mac) + InputArgs()
                + ConsoleArgs(vncSocket, qmpSocket) + DiskArgs(diskFile);
  }

  /**
    Every entry of the argument list is fixed data except the five values
    built from the VM's resources: the netdev, the NIC, the display, the
    QMP chardev and the drive (positions 25, 27, 35, 37 and 41).
  */
  lemma OnlyWiringVaries(vncSocket: string, qmpSocket: string, diskFile: string,
                         nicDevice: string, mac: string, netdev: string,
                         vncSocket': string, qmpSocket': string, diskFile': string,
                         nicDevice': string, mac': string, netdev': string)
    ensures var a := CommandLine(vncSocket, qmpSocket, diskFile, nicDevice, mac, netdev);
      var b := CommandLine(vncSocket', qmpSocket', diskFile', nicDevice', mac', netdev');
      forall i :: 0 <= i < 44 && i != 25 && i != 27 && i != 35 && i != 37 && i != 41 ==> a[i] == b[i]
  {
    var a := CommandLine(vncSocket, qmpSocket, diskFile, nicDevice, mac, netdev);
    var b := CommandLine(vncSocket', qmpSocket', diskFile', nicDevice', mac', netdev');
    CommandLineFixed(vncSocket, qmpSocket, diskFile, nicDevice, mac, netdev);
    CommandLineFixed(vncSocket', qmpSocket', diskFile', nicDevice', mac', netdev');
    forall i | 0 <= i < 24
      ensures a[i] == b[i]
    {
      assert a[i] == a[..24][i] && b[i] == b[..24][i];
    }
    forall i | 28 <= i < 34
      ensures a[i] == b[i]
    {
      assert a[i] == a[28..34][i - 28] && b[i] == b[28..34][i - 28];
    }
  }

  /** An option pair carries its value, and every comma-separated part of it. */
  lemma OptFlag(flag: string, value: string, part: string)
    ensures FlagIs(Opt(flag, value), flag, value)
    ensures part in Split(value) ==> FlagHas(Opt(flag, value), flag, part)
  {
    assert Opt(flag, value)[0] == flag && Opt(flag, value)[1] == value;
  }

  /** A flag followed by exactly `x` in either half of an argument list is one in the whole. */
  lemma FlagIsAppend(xs: seq<string>, ys: seq<string>, flag: string, x: string)
    ensures FlagIs(xs, flag, x) || FlagIs(ys, flag, x) ==> FlagIs(xs + ys, flag, x)
  {
    var zs := xs + ys;
    if FlagIs(xs, flag, x) {
      var i :| 0 <= i < |xs| - 1 && xs[i] == flag && xs[i + 1] == x;
      assert zs[i] == flag && zs[i + 1] == x;
    } else if FlagIs(ys, flag, x) {
      var i :| 0 <= i < |ys| - 1 && ys[i] == flag && ys[i + 1] == x;
      assert zs[|xs| + i] == flag && zs[|xs| + i + 1] == x;
    }
  }

  /** A flag whose value has the part `x` in either half of an argument list is one in the whole. */
  lemma FlagHasAppend(xs: seq<string>, ys: seq<string>, flag: string, x: string)
    ensures FlagHas(xs, flag, x) || FlagHas(ys, flag, x) ==> FlagHas(xs + ys, flag, x)
  {
    var zs := xs + ys;
    if FlagHas(xs, flag, x) {
      var i :| 0 <= i < |xs| - 1 && xs[i] == flag && x in Split(xs[i + 1]);
      assert zs[i] == flag && zs[i + 1] == xs[i + 1];
    } else if FlagHas(ys, flag, x) {
      var i :| 0 <= i < |ys| - 1 && ys[i] == flag && x in Split(ys[i + 1]);
      assert zs[|xs| + i] == flag && zs[|xs| + i + 1] == ys[i + 1];
    }
  }

  /** An option found in either half of an argument list is found in the whole. */
  lemma FlagAppend(xs: seq<string>, ys: seq<string>, flag: string, x: string)
    ensures FlagIs(xs, flag, x) || FlagIs(ys, flag, x) ==> FlagIs(xs + ys, flag, x)
    ensures FlagHas(xs, flag, x) || FlagHas(ys, flag, x) ==> FlagHas(xs + ys, flag, x)
  {
    FlagIsAppend(xs, ys, flag, x);
    FlagHasAppend(xs, ys, flag, x);
  }

  /** An option of the first, second or third of three pairs is an option of their concatenation. */
  lemma FlagInTriple(p: seq<string>, q: seq<string>, r: seq<string>, flag: string, x: string)
    ensures FlagIs(p, flag, x) || FlagIs(q, flag, x) || FlagIs(r, flag, x) ==> FlagIs(p + q + r, flag, x)
    ensures FlagHas(p, flag, x) || FlagHas(q, flag, x) || FlagHas(r, flag, x) ==> FlagHas(p + q + r, flag, x)
  {
    FlagAppend(p, q, flag, x);
    FlagAppend(p + q, r, flag, x);
  }

  /** An option of the network, console or disk segment is an option of the whole command line. */
  lemma InContext(vncSocket: string, qmpSocket: string, diskFile: string,
                  nicDevice: string, mac: string, netdev: string, flag: string, x: string)
    ensures var a := CommandLine(vncSocket, qmpSocket, diskFile, nicDevice, mac, netdev);
      && ((|| FlagIs(NetworkArgs(netdev, nicDevice, mac), flag, x)
           || FlagIs(ConsoleArgs(vncSocket, qmpSocket), flag, x)
           || FlagIs(DiskArgs(diskFile), flag, x))
          ==> FlagIs(a, flag, x))
      && ((|| FlagHas(NetworkArgs(netdev, nicDevice, mac), flag, x)
           || FlagHas(ConsoleArgs(vncSocket, qmpSocket), flag, x)
           || FlagHas(DiskArgs(diskFile), flag, x))
          ==> FlagHas(a, flag, x))
  {
    var a := MachineArgs() + ControllerArgs();
    var b := a + NetworkArgs(netdev, nicDevice, mac);
    var c := b + InputArgs();
    var d := c + ConsoleArgs(vncSocket, qmpSocket);
    FlagAppend(a, NetworkArgs(netdev, nicDevice, mac), flag, x);
    FlagAppend(b, InputArgs(), flag, x);
    FlagAppend(c, ConsoleArgs(vncSocket, qmpSocket), flag, x);
    FlagAppend(d, DiskArgs(diskFile), flag, x);
  }

  /** Each option's `k=v` is one of the comma-separated parts of `arg`'s output. */
  lemma ItemInArg(kind: string, opts: seq<KeyValue>, j: int)
    requires ',' !in kind && CommaFree(opts) && 0 <= j < |opts|
    ensures Item(opts[j].0, opts[j].1) in Split(Arg(kind, opts))
  {
    ArgSplit(kind, opts);
    var ps := Parts(kind, opts);
    var d := if kind == "" then 0 else 1;
    assert ps[d + j] == Items(opts)[j];
  }

  /**
    The order Go's map iteration picks does not matter: whatever order the
    options of a literal come in, each option's `k=v` is a part of `arg`'s
    output.
  */
  lemma ItemInAnyOrder(kind: string, opts: seq<KeyValue>, literal: seq<KeyValue>, kv: KeyValue)
    requires ',' !in kind && CommaFree(literal)
    requires multiset(opts) == multiset(literal) && kv in literal
    ensures Item(kv.0, kv.1) in Split(Arg(kind, opts))
  {
    assert kv in multiset(opts);
    var j :| 0 <= j < |opts| && opts[j] == kv;
    forall i | 0 <= i < |opts|
      ensures ',' !in opts[i].0 && ',' !in opts[i].1
    {
      assert opts[i] in multiset(literal);
      var k :| 0 <= k < |literal| && literal[k] == opts[i];
    }
    ItemInArg(kind, opts, j);
  }

  /** A non-empty kind is the first comma-separated part of `arg`'s output. */
  lemma KindInArg(kind: string, opts: seq<KeyValue>)
    requires ',' !in kind && CommaFree(opts) && kind != ""
    ensures kind in Split(Arg(kind, opts))
  {
    ArgSplit(kind, opts);
    assert Parts(kind, opts)[0] == kind;
  }

  /** The `-vnc` value begins with the part `unix:<vncSocket>`. */
  lemma VncDisplayPart(vncSocket: string)
    requires ',' !in vncSocket
    ensures "unix:" + vncSocket in Split(VncDisplay(vncSocket))
  {
    var unix := "unix:" + vncSocket;
    forall k | 0 <= k < |unix|
      ensures unix[k] != ','
    {
      if k >= 5 {
        assert unix[k] == vncSocket[k - 5];
      }
    }
    assert CommaFree(VncOpts()) by {
      assert VncOpts()[0] == ("share", "force-shared");
    }
    KindInArg(unix, VncOpts());
  }

  /**
    The socket path goes into the `-vnc` value unescaped: `unix:<vncSocket>`
    is one of its parts exactly when the path holds no comma.
  */
  lemma VncDisplayPartIff(vncSocket: string)
    ensures "unix:" + vncSocket in Split(VncDisplay(vncSocket)) <==> ',' !in vncSocket
  {
    if ',' !in vncSocket {
      VncDisplayPart(vncSocket);
    } else {
      SplitPartsCommaFree(VncDisplay(vncSocket));
      var k :| 0 <= k < |vncSocket| && vncSocket[k] == ',';
      assert ("unix:" + vncSocket)[k + 5] == ',';
    }
  }

  /** The display listens on the VM's own VNC socket, as `unix:<vncSocket>`. */
  lemma VncWiring(vncSocket: string, qmpSocket: string, diskFile: string,
                  nicDevice: string, mac: string, netdev: string)
    requires ',' !in vncSocket
    ensures FlagHas(CommandLine(vncSocket, qmpSocket, diskFile, nicDevice, mac, netdev),
                    "-vnc", "unix:" + vncSocket)
  {
    var unix := "unix:" + vncSocket;
    VncDisplayPart(vncSocket);
    OptFlag("-vnc", VncDisplay(vncSocket), unix);
    FlagInTriple(Opt("-vnc", VncDisplay(vncSocket)), Opt("-chardev", QmpChardev(qmpSocket)),
                 Opt("-qmp", QMP_CHARDEV_ID), "-vnc", unix);
    InContext(vncSocket, qmpSocket, diskFile, nicDevice, mac, netdev, "-vnc", unix);
  }

  /** The comma-separated parts of the QMP chardev value. */
  function QmpChardevItems(qmpSocket: string): seq<string>
  {
    ["socket", Item("id", QMP_CHARDEV_ID), Item("path", qmpSocket), "nowait", "server=on"]
  }

  /** The QMP chardev value joins its parts with commas. */
  lemma QmpChardevJoin(qmpSocket: string)
    ensures Join(QmpChardevItems(qmpSocket)) == QmpChardev(qmpSocket)
  {
    var p := QmpChardevItems(qmpSocket);
    var front := "socket" + "," + p[1];
    var back := "," + "nowait" + "," + "server=on";
    assert Join(p[..2]) == front by {
      assert p[..2][..1] == p[..1];
    }
    assert Join(p[..3]) == front + "," + p[2] by {
      assert p[..3][..2] == p[..2];
    }
    assert Join(p[..4]) == front + "," + p[2] + "," + p[3] by {
      assert p[..4][..3] == p[..3];
    }
    assert Join(p) == front + "," + p[2] + "," + p[3] + "," + p[4] by {
      assert p[..|p| - 1] == p[..4];
    }
    assert front + "," + p[2] + "," + p[3] + "," + p[4] == (front + ",path=") + qmpSocket + back by {
      assert p[2] == "path=" + qmpSocket;
    }
    assert front + ",path=" == "socket,id=" + QMP_CHARDEV_ID + ",path=" by {
      assert p[1] == "id=" + QMP_CHARDEV_ID;
    }
  }

  /** Splitting the QMP chardev value gives back its five parts. */
  lemma QmpChardevParts(qmpSocket: string)
    requires ',' !in qmpSocket
    ensures Split(QmpChardev(qmpSocket)) == QmpChardevItems(qmpSocket)
  {
    var parts := QmpChardevItems(qmpSocket);
    QmpChardevJoin(qmpSocket);
    assert ',' !in Item("path", qmpSocket);
    SplitJoin(parts);
  }

  /** The QMP chardev value names the QMP socket's path among its parts. */
  lemma ChardevPathPart(qmpSocket: string)
    requires ',' !in qmpSocket
    ensures Item("path", qmpSocket) in Split(QmpChardev(qmpSocket))
  {
    QmpChardevParts(qmpSocket);
    assert QmpChardevItems(qmpSocket)[2] == Item("path", qmpSocket);
  }

  /** The QMP chardev value declares the id `qmp-socket` among its parts. */
  lemma ChardevIdPart(qmpSocket: string)
    requires ',' !in qmpSocket
    ensures Item("id", QMP_CHARDEV_ID) in Split(QmpChardev(qmpSocket))
  {
    QmpChardevParts(qmpSocket);
    assert QmpChardevItems(qmpSocket)[1] == Item("id", QMP_CHARDEV_ID);
  }

  /**
    The QMP channel is one socket chardev whose value both declares the id
    that `-qmp` names and listens on the VM's own QMP socket.
  */
  lemma QmpWiring(vncSocket: string, qmpSocket: string, diskFile: string,
                  nicDevice: string, mac: string, netdev: string)
    requires ',' !in qmpSocket
    ensures var a := CommandLine(vncSocket, qmpSocket, diskFile, nicDevice, mac, netdev);
      && FlagHasBoth(a, "-chardev", Item("id", QMP_CHARDEV_ID), Item("path", qmpSocket))
      && FlagIs(a, "-qmp", QMP_CHARDEV_ID)
  {
    var a := CommandLine(vncSocket, qmpSocket, diskFile, nicDevice, mac, netdev);
    CommandLineFixed(vncSocket, qmpSocket, diskFile, nicDevice, mac, netdev);
    CommandLineValues(vncSocket, qmpSocket, diskFile, nicDevice, mac, netdev);
    ChardevIdPart(qmpSocket);
    ChardevPathPart(qmpSocket);
    assert a[36] == "-chardev" && Item("id", QMP_CHARDEV_ID) in Split(a[36 + 1])
           && Item("path", qmpSocket) in Split(a[36 + 1]);
    assert a[38] == "-qmp" && a[38 + 1] == QMP_CHARDEV_ID;
  }

  /** The NIC's options hold no comma when the MAC holds none. */
  lemma NicOptsCommaFree(mac: string)
    requires ',' !in mac
    ensures CommaFree(NicOpts(mac)) && |NicOpts(mac)| == 5
    ensures NicOpts(mac)[0] == ("netdev", NETDEV_ID) && NicOpts(mac)[2] == ("mac", mac)
  {
  }

  /** The NIC's device value refers to the netdev id among its parts. */
  lemma NicNetdevPart(nicDevice: string, mac: string)
    requires ',' !in nicDevice && ',' !in mac
    ensures Item("netdev", NETDEV_ID) in Split(Arg(nicDevice, NicOpts(mac)))
  {
    NicOptsCommaFree(mac);
    ItemInArg(nicDevice, NicOpts(mac), 0);
  }

  /** The NIC's device value carries the MAC among its parts. */
  lemma NicMacPart(nicDevice: string, mac: string)
    requires ',' !in nicDevice && ',' !in mac
    ensures Item("mac", mac) in Split(Arg(nicDevice, NicOpts(mac)))
  {
    NicOptsCommaFree(mac);
    ItemInArg(nicDevice, NicOpts(mac), 2);
  }

  /** In whatever order the NIC's options come, its value keeps the netdev id and the MAC among its parts. */
  lemma NicPartsAnyOrder(nicDevice: string, mac: string, opts: seq<KeyValue>)
    requires ',' !in nicDevice && ',' !in mac && multiset(opts) == multiset(NicOpts(mac))
    ensures Item("netdev", NETDEV_ID) in Split(Arg(nicDevice, opts))
    ensures Item("mac", mac) in Split(Arg(nicDevice, opts))
  {
    NicOptsCommaFree(mac);
    ItemInAnyOrder(nicDevice, opts, NicOpts(mac), NicOpts(mac)[0]);
    ItemInAnyOrder(nicDevice, opts, NicOpts(mac), NicOpts(mac)[2]);
  }

  /**
    `-netdev` is exactly the network's descriptor, and one NIC `-device`
    both refers to the netdev id `netdev-0` and carries the image's MAC.
  */
  lemma NetworkWiring(vncSocket: string, qmpSocket: string, diskFile: string,
                      nicDevice: string, mac: string, netdev: string)
    requires ',' !in nicDevice && ',' !in mac
    ensures var a := CommandLine(vncSocket, qmpSocket, diskFile, nicDevice, mac, netdev);
      && FlagIs(a, "-netdev", netdev)
      && FlagHasBoth(a, "-device", Item("netdev", NETDEV_ID), Item("mac", mac))
  {
    var a := CommandLine(vncSocket, qmpSocket, diskFile, nicDevice, mac, netdev);
    CommandLineFixed(vncSocket, qmpSocket, diskFile, nicDevice, mac, netdev);
    CommandLineValues(vncSocket, qmpSocket, diskFile, nicDevice, mac, netdev);
    NicNetdevPart(nicDevice, mac);
    NicMacPart(nicDevice, mac);
    assert a[24] == "-netdev" && a[24 + 1] == netdev;
    assert a[26] == "-device" && Item("netdev", NETDEV_ID) in Split(a[26 + 1])
           && Item("mac", mac) in Split(a[26 + 1]);
  }

  /** The drive's options hold no comma when the disk file holds none. */
  lemma DriveOptsCommaFree(diskFile: string)
    requires ',' !in diskFile
    ensures CommaFree(DriveOpts(diskFile)) && |DriveOpts(diskFile)| == 8
    ensures DriveOpts(diskFile)[0] == ("file", diskFile) && DriveOpts(diskFile)[2] == ("id", BOOT_DISK_ID)
  {
  }

  /** The drive value names the disk file among its parts. */
  lemma DriveFilePart(diskFile: string)
    requires ',' !in diskFile
    ensures Item("file", diskFile) in Split(Arg("", DriveOpts(diskFile)))
  {
    DriveOptsCommaFree(diskFile);
    ItemInArg("", DriveOpts(diskFile), 0);
  }

  /** The drive value declares the id `boot-disk` among its parts. */
  lemma DriveIdPart(diskFile: string)
    requires ',' !in diskFile
    ensures Item("id", BOOT_DISK_ID) in Split(Arg("", DriveOpts(diskFile)))
  {
    DriveOptsCommaFree(diskFile);
    ItemInArg("", DriveOpts(diskFile), 2);
  }

  /** In whatever order the drive's options come, its value keeps the disk file and the id `boot-disk` among its parts. */
  lemma DrivePartsAnyOrder(diskFile: string, opts: seq<KeyValue>)
    requires ',' !in diskFile && multiset(opts) == multiset(DriveOpts(diskFile))
    ensures Item("file", diskFile) in Split(Arg("", opts))
    ensures Item("id", BOOT_DISK_ID) in Split(Arg("", opts))
  {
    DriveOptsCommaFree(diskFile);
    ItemInAnyOrder("", opts, DriveOpts(diskFile), DriveOpts(diskFile)[0]);
    ItemInAnyOrder("", opts, DriveOpts(diskFile), DriveOpts(diskFile)[2]);
  }

  /** The boot device's options hold no comma. */
  lemma DiskDeviceOptsCommaFree()
    ensures CommaFree(DiskDeviceOpts()) && |DiskDeviceOpts()| == 6
    ensures DiskDeviceOpts()[3] == ("drive", BOOT_DISK_ID)
  {
  }

  /** The boot device refers to the drive `boot-disk`. */
  lemma BootDeviceParts()
    ensures Item("drive", BOOT_DISK_ID) in Split(Arg("virtio-blk-pci", DiskDeviceOpts()))
  {
    DiskDeviceOptsCommaFree();
    ItemInArg("virtio-blk-pci", DiskDeviceOpts(), 3);
  }

  /** In whatever order the boot device's options come, its value keeps `drive=boot-disk` among its parts. */
  lemma BootDevicePartsAnyOrder(opts: seq<KeyValue>)
    requires multiset(opts) == multiset(DiskDeviceOpts())
    ensures Item("drive", BOOT_DISK_ID) in Split(Arg("virtio-blk-pci", opts))
  {
    DiskDeviceOptsCommaFree();
    ItemInAnyOrder("virtio-blk-pci", opts, DiskDeviceOpts(), DiskDeviceOpts()[3]);
  }

  /**
    One `-drive` serves the image's disk file under the id `boot-disk`, and
    the boot device refers to the drive by that same id.
  */
  lemma DiskWiring(vncSocket: string, qmpSocket: string, diskFile: string,
                   nicDevice: string, mac: string, netdev: string)
    requires ',' !in diskFile
    ensures var a := CommandLine(vncSocket, qmpSocket, diskFile, nicDevice, mac, netdev);
      && FlagHasBoth(a, "-drive", Item("file", diskFile), Item("id", BOOT_DISK_ID))
      && FlagHas(a, "-device", Item("drive", BOOT_DISK_ID))
  {
    var a := CommandLine(vncSocket, qmpSocket, diskFile, nicDevice, mac, netdev);
    CommandLineFixed(vncSocket, qmpSocket, diskFile, nicDevice, mac, netdev);
    CommandLineValues(vncSocket, qmpSocket, diskFile, nicDevice, mac, netdev);
    DriveFilePart(diskFile);
    DriveIdPart(diskFile);
    BootDeviceParts();
    assert a[40] == "-drive" && Item("file", diskFile) in Split(a[40 + 1])
           && Item("id", BOOT_DISK_ID) in Split(a[40 + 1]);
    assert a[42] == "-device" && Item("drive", BOOT_DISK_ID) in Split(a[42 + 1]);
  }
}
