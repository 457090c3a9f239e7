/** The part of the operating system the daemon's file handling relies on: a descriptor
    table with lowest-free allocation, and the contents of regular files. Whether a call
    succeeds is decided by the environment and passed in by the caller. */
module OsKernel {

  datatype Descriptor = Socket | DevNull | File(path: string) | Foreign(id: nat)

  type FdTable = map<nat, Descriptor>

  /** The least descriptor number not below n that is free. */
  function FreeFrom(fds: FdTable, n: nat): (fd: nat)
    ensures fd >= n && fd !in fds && forall k: nat | n <= k < fd :: k in fds
    decreases set k | k in fds && k >= n
  {
    if n !in fds then n else
      assert (set k | k in fds && k >= n + 1) == (set k | k in fds && k >= n) - {n};
      FreeFrom(fds, n + 1)
  }

  function LowestFree(fds: FdTable): (fd: nat)
    ensures fd !in fds && forall k: nat | k < fd :: k in fds
  {
    FreeFrom(fds, 0)
  }

  class Kernel {
    var fds: FdTable
    var files: map<string, string>

    constructor (fds: FdTable, files: map<string, string>)
      ensures this.fds == fds && this.files == files
    {
      this.fds, this.files := fds, files;
    }

    /** socket() and open(): a successful call takes the lowest free descriptor. */
    method Allocate(d: Descriptor, ok: bool) returns (fd: int)
      modifies this`fds
      ensures !ok ==> fd == -1 && fds == old(fds)
      ensures ok ==> fd == LowestFree(old(fds)) && fds == old(fds)[LowestFree(old(fds)) := d]
    {
      if !ok {
        return -1;
      }
      var n := LowestFree(fds);
      fds := fds[n := d];
      fd := n;
    }

    /** close(); closing a number that is not open changes nothing. */
    method Close(fd: nat)
      modifies this`fds
      ensures fds == old(fds) - {fd}
    {
      fds := fds - {fd};
    }

    /** dup2() of an open descriptor; onto itself it changes nothing. */
    method Dup2(from: nat, to: nat)
      requires from in fds
      modifies this`fds
      ensures fds == old(fds)[to := old(fds)[from]]
    {
      fds := fds[to := fds[from]];
    }

    /** open(path, O_RDWR | O_CREAT) */
    method OpenCreate(path: string, ok: bool) returns (fd: int)
      modifies this
      ensures !ok ==> fd == -1 && fds == old(fds) && files == old(files)
      ensures ok ==> fd == LowestFree(old(fds)) && fds == old(fds)[LowestFree(old(fds)) := File(path)]
      ensures ok ==> files == if path in old(files) then old(files) else old(files)[path := ""]
    {
      fd := Allocate(File(path), ok);
      if ok && path !in files {
        files := files[path := ""];
      }
    }
  }
}
