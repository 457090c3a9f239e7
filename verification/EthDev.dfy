/** Eth_Dev_Param: the socket an interface object owns, and its hardware address calls
    (eth_dev_param.cpp). Copies of the object sharing one socket are not modelled. */
module EthDev {
  import opened Text
  import opened OsKernel
  import opened Mac

  const IFNAMSIZ := 16

  /** _sd, _opened and _ifr.ifr_name */
  datatype Dev = Dev(sd: int, isOpen: bool, name: string)

  function Initial(): Dev {
    Dev(-1, false, "")
  }

  // ---------------------------------------------------------------- specification

  function CloseFds(d: Dev, fds: FdTable): FdTable {
    if d.sd >= 0 then fds - {d.sd} else fds
  }

  function NameFits(name: Option<string>): bool {
    name.Some? && |name.value| < IFNAMSIZ
  }

  /** The device and the descriptor table after open(); it succeeded when the device is open. */
  function OpenResult(d: Dev, fds: FdTable, name: Option<string>, socketOk: bool, flagsOk: bool): (Dev, FdTable) {
    var fds' := CloseFds(d, fds);
    if NameFits(name) && socketOk && flagsOk
    then var n := LowestFree(fds'); (Dev(n, true, name.value), fds'[n := Socket])
    else (Initial(), fds')
  }

  // ---------------------------------------------------------------- implementation

  class EthDevParam {
    var sd: int
    var isOpen: bool
    var ifrName: string
    var hwData: MacAddress   // ifr_hwaddr.sa_data, the first six bytes

    function Value(): Dev
      reads this
    {
      Dev(sd, isOpen, ifrName)
    }

    constructor ()
      ensures Value() == Initial()
    {
      sd, isOpen, ifrName := -1, false, "";
      hwData := [0, 0, 0, 0, 0, 0];
    }

    method Close(k: Kernel)
      requires sd >= -1
      modifies this, k`fds
      ensures Value() == Initial()
      ensures k.fds == CloseFds(old(Value()), old(k.fds))
    {
      if sd != -1 {
        k.Close(sd);
      }
      ifrName := "";
      hwData := [0, 0, 0, 0, 0, 0];
      isOpen := false;
      sd := -1;
    }

    /** socketOk and flagsOk say whether socket() and ioctl(SIOCGIFFLAGS) succeed. */
    method Open(k: Kernel, devName: Option<string>, socketOk: bool, flagsOk: bool) returns (ret: int)
      requires sd >= -1
      modifies this, k`fds
      ensures (Value(), k.fds) == OpenResult(old(Value()), old(k.fds), devName, socketOk, flagsOk)
      ensures ret == if devName.Some? && |devName.value| < 16 && socketOk && flagsOk then 0 else -1
      ensures ret == 0 ==> isOpen && sd >= 0 && ifrName == devName.value && sd in k.fds && k.fds[sd] == Socket
      ensures ret != 0 ==> !isOpen && sd == -1 && ifrName == ""
      ensures k.fds - {sd} == old(k.fds) - {old(sd)} - {sd}
    {
      Close(k);
      if devName.None? || |devName.value| >= IFNAMSIZ {
        return -1;
      }
      sd := k.Allocate(Socket, socketOk);
      if sd == -1 {
        return -1;
      }
      ifrName := devName.value;
      if !flagsOk {
        ghost var before := CloseFds(old(Value()), old(k.fds));
        Close(k);
        assert k.fds == before;
        return -1;
      }
      isOpen := true;
      return 0;
    }

    /** set_hwaddr(const char*): junk stands for the uninitialised tmp_mac, ioctlRet for the
        result of SIOCSIFHWADDR. */
    method SetHwaddr(hwaddr: Option<string>, junk: seq<int>, ioctlRet: int) returns (ret: int)
      requires |junk| == 6
      modifies this`hwData
      ensures isOpen && hwaddr.Some? && |hwaddr.value| == 17
              ==> ret == ioctlRet && hwData == MacBytes(hwaddr.value, junk)
      ensures !(isOpen && hwaddr.Some? && |hwaddr.value| == 17) ==> ret == -1 && hwData == old(hwData)
    {
      if !isOpen || hwaddr.None? || |hwaddr.value| != 17 {
        return -1;
      }
      var vs := ScanFields(hwaddr.value, 6);
      var tmp := vs + junk[|vs|..];
      for i := 0 to 6
        invariant forall j | 0 <= j < i :: hwData[j] == tmp[j] % 256
      {
        hwData := hwData[i := tmp[i] % 256];
      }
      assert hwData == MacBytes(hwaddr.value, junk);
      return ioctlRet;
    }

    /** get_hwaddr(char*): what the kernel reports for the interface, if the ioctl succeeds and
        the interface is an Ethernet one. */
    method GetHwaddr(kernelMac: Option<MacAddress>) returns (ret: int, hwaddr: string)
      ensures ret == if isOpen && kernelMac.Some? then 0 else -1
      ensures ret == 0 ==> hwaddr == PrintMac(kernelMac.value) && WellFormed(hwaddr, 6) && |hwaddr| == 17
      ensures ret == 0 ==>
                forall i | 0 <= i < 6 :: hwaddr[3 * i] == "0123456789abcdef"[kernelMac.value[i] / 16]
      ensures ret == 0 ==>
                forall i | 0 <= i < 6 :: hwaddr[3 * i + 1] == "0123456789abcdef"[kernelMac.value[i] % 16]
      ensures ret == 0 ==> forall junk: seq<int> | |junk| == 6 :: MacBytes(hwaddr, junk) == kernelMac.value
    {
      hwaddr := "";
      if !isOpen || kernelMac.None? {
        return -1, hwaddr;
      }
      PrintWellFormed(kernelMac.value);
      forall i | 0 <= i < 6
        ensures PrintMac(kernelMac.value)[3 * i] == "0123456789abcdef"[kernelMac.value[i] / 16]
        ensures PrintMac(kernelMac.value)[3 * i + 1] == "0123456789abcdef"[kernelMac.value[i] % 16]
      {
        PrintedAt(kernelMac.value, i);
        HexDigits(kernelMac.value[i] / 16);
        HexDigits(kernelMac.value[i] % 16);
      }
      forall junk: seq<int> | |junk| == 6 ensures MacBytes(PrintMac(kernelMac.value), junk) == kernelMac.value {
        MacRoundTrip(kernelMac.value, junk);
      }
      return 0, PrintMac(kernelMac.value);
    }
  }

  /** Giving one open interface the address another reports: the setter accepts the printed
      text and stores the same six bytes. */
  method CopyHwaddr(from: EthDevParam, to: EthDevParam, kernelMac: Option<MacAddress>, junk: seq<int>, ioctlRet: int)
    returns (ret: int)
    requires |junk| == 6
    modifies to`hwData
    ensures from.isOpen && to.isOpen && kernelMac.Some? ==> ret == ioctlRet && to.hwData == kernelMac.value
    ensures !(from.isOpen && to.isOpen && kernelMac.Some?) ==> ret == -1 && to.hwData == old(to.hwData)
  {
    var got, text := from.GetHwaddr(kernelMac);
    if got != 0 {
      return -1;
    }
    ret := to.SetHwaddr(Some(text), junk, ioctlRet);
  }

  // ---------------------------------------------------------------- runs

  /** One object, the descriptor table, and the descriptors everybody else holds. */
  datatype World = World(dev: Dev, fds: FdTable, others: FdTable)

  datatype Op =
    | Open(name: Option<string>, socketOk: bool, flagsOk: bool)
    | Close
    | OtherOpens(d: Descriptor)
    | OtherCloses(fd: nat)

  function Step(w: World, op: Op): World {
    match op
    case Open(name, socketOk, flagsOk) =>
      var (dev, fds) := OpenResult(w.dev, w.fds, name, socketOk, flagsOk);
      World(dev, fds, w.others)
    case Close => World(Initial(), CloseFds(w.dev, w.fds), w.others)
    case OtherOpens(d) =>
      var n := LowestFree(w.fds);
      World(w.dev, w.fds[n := d], w.others[n := d])
    case OtherCloses(fd) =>
      if fd in w.others then World(w.dev, w.fds - {fd}, w.others - {fd}) else w
  }

  function Run(w: World, ops: seq<Op>): World
    decreases |ops|
  {
    if ops == [] then w else Run(Step(w, ops[0]), ops[1..])
  }

  /** The object is open exactly when it holds a socket; the table is what the others hold
      plus that one socket. */
  ghost predicate Conserved(w: World) {
    && (w.dev.isOpen <==> w.dev.sd != -1)
    && w.dev.sd >= -1
    && (w.dev.sd == -1 ==> w.fds == w.others && w.dev.name == "")
    && (w.dev.sd >= 0 ==> w.dev.sd !in w.others && w.fds == w.others[w.dev.sd := Socket] && |w.dev.name| < IFNAMSIZ)
  }

  lemma StepConserves(w: World, op: Op)
    requires Conserved(w)
    ensures Conserved(Step(w, op))
  {
    assert CloseFds(w.dev, w.fds) == w.others;
    if op.OtherCloses? && op.fd in w.others && w.dev.sd >= 0 {
      assert w.fds - {op.fd} == (w.others - {op.fd})[w.dev.sd := Socket];
    }
  }

  /** In every run of opens and closes, interleaved with any other descriptor traffic, from a
      freshly constructed object: no socket leaks, and none but the object's own is touched. */
  lemma {:induction false} RunConserves(w: World, ops: seq<Op>)
    requires Conserved(w)
    ensures Conserved(Run(w, ops))
    decreases |ops|
  {
    if ops != [] {
      StepConserves(w, ops[0]);
      RunConserves(Step(w, ops[0]), ops[1..]);
    }
  }

  lemma {:induction false} RunFromStart(fds: FdTable, ops: seq<Op>)
    ensures var w := Run(World(Initial(), fds, fds), ops);
            && (w.dev.isOpen <==> w.dev.sd != -1)
            && CloseFds(w.dev, w.fds) == w.others
            && ((forall op | op in ops :: op.Open? || op.Close?) ==> w.others == fds)
  {
    RunConserves(World(Initial(), fds, fds), ops);
    if forall op | op in ops :: op.Open? || op.Close? {
      OwnOpsKeepOthers(World(Initial(), fds, fds), ops);
    }
    var w := Run(World(Initial(), fds, fds), ops);
    assert CloseFds(w.dev, w.fds) == w.others;
  }

  lemma {:induction false} OwnOpsKeepOthers(w: World, ops: seq<Op>)
    requires forall op | op in ops :: op.Open? || op.Close?
    ensures Run(w, ops).others == w.others
    decreases |ops|
  {
    if ops != [] {
      assert ops[0] in ops;
      forall op | op in ops[1..] ensures op in ops {}
      OwnOpsKeepOthers(Step(w, ops[0]), ops[1..]);
    }
  }
}
