/**
 * Clients of the memory manager: whole buffer lifecycles, proved from the
 * manager's specification alone.
 */
module Scenarios {
  import opened MemoryModel
  import opened MemoryManager

  /** A buffer of 100 eight-byte values in device mode: it is registered
      with 800 bytes, the first Adrs allocates and copies it to the device,
      the second returns the same mirror with no backend call, Pull copies
      it back, and after Erase it is no longer known. */
  method DeviceLifecycle(p: Addr, xsEnv: bool, devAlloc: Addr, otherAlloc: Addr)
    returns (key: Result<Addr>, first: Result<Addr>, second: Result<Addr>, erased: Result<Addr>, knownAfter: bool, ghost trace: seq<Event>)
    requires devAlloc != Null && otherAlloc != Null
    ensures key == Ok(p + ShiftFor(xsEnv))
    ensures first == Ok(devAlloc) && second == first
    ensures erased == Ok(p) && !knownAfter
    ensures trace == [DeviceSetup,
                      Alloc(devAlloc, 800),
                      Copy(HtoD, devAlloc, p + ShiftFor(xsEnv), 800, true),
                      Copy(DtoH, p + ShiftFor(xsEnv), devAlloc, 800, false)]
  {
    var mm := new Manager(xsEnv, true);
    key := mm.Insert(p, 100, 8, false);
    var h := key.value;
    var known := mm.Known(h, false);
    assert known && mm.mng[h].bytes == 800;
    first := mm.Adrs(h, true, devAlloc);
    assert mm.mng[h] == Record(h, devAlloc, 800, false, false);
    second := mm.Adrs(h, true, otherAlloc);
    mm.Pull(h);
    erased := mm.Erase(h);
    knownAfter := mm.Known(h, false);
    trace := mm.log;
  }

  /** With device execution off, Adrs hands back the caller's own pointer
      (the registered key unshifted) and the backend is only initialised. */
  method HostLifecycle(p: Addr, xsEnv: bool, devAlloc: Addr)
    returns (ptr: Result<Addr>, ghost trace: seq<Event>)
    requires devAlloc != Null
    ensures ptr == Ok(p)
    ensures trace == [DeviceSetup]
  {
    var mm := new Manager(xsEnv, true);
    var key := mm.Insert(p, 100, 8, false);
    ptr := mm.Adrs(key.value, false, devAlloc);
    mm.Push(key.value);
    mm.Pull(key.value);
    trace := mm.log;
  }

  /** A pointer three words into a block of four eight-byte values: Range
      finds the block, Known registers the sub-range with the block's byte
      count less the offset in words, and the pointer then resolves. Because
      Range adds the byte count as words, a pointer 32 words in, well past
      the block's 4 words, is still taken to be inside it. With XS set, the
      sub-range lands at the probe only because Known hands Insert the
      unshifted probe (see Findings.KnownInRangeAsWritten). */
  method SubRangeLookup(p: Addr, xsEnv: bool, devAlloc: Addr)
    returns (base: Addr, farBase: Addr, known: bool, subBytes: nat, ptr: Result<Addr>)
    requires p != Null && devAlloc != Null
    ensures base == p + ShiftFor(xsEnv) && farBase == base
    ensures known && subBytes == 29
    ensures ptr == Ok(p + 3)
  {
    var mm := new Manager(xsEnv, true);
    var key := mm.Insert(p, 4, 8, false);
    var h := key.value;
    base := mm.Range(h + 3);
    farBase := mm.Range(h + 32);
    assert Encloses(mm.mng, h, h + 3);
    known := mm.Known(h + 3, true);
    subBytes := mm.mng[h + 3].bytes;
    ptr := mm.Adrs(h + 3, false, devAlloc);
  }

  /** Registering an address twice and erasing an unknown one are fatal. */
  method Misuse(p: Addr, xsEnv: bool)
    returns (again: Result<Addr>, stray: Result<Addr>)
    ensures again == Err(AlreadyPresent)
    ensures stray == Err(UnknownAddress)
  {
    var mm := new Manager(xsEnv, false);
    var key := mm.Insert(p, 1, 8, false);
    again := mm.Insert(p, 1, 8, false);
    stray := mm.Erase(key.value + 1);
  }
}
