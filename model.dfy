/**
 * The data model of MFEM's host/device memory registry (general/mm.cpp):
 * addresses, the record kept per registered block, the backend calls the
 * registry issues, and the pure functions that specify its operations.
 */
module MemoryModel {

  /** An address, counted in `size_t` words: the unit of every pointer
      addition and subtraction in the registry. */
  type Addr = nat

  /** The null pointer. */
  const Null: Addr := 0

  /** The debug shift, 2^48 words, used when the XS environment variable is set. */
  const XsOffset: nat := 0x1_0000_0000_0000

  /** The `ranged` flag that Known's sub-range registration passes to Insert
      (Insert's default argument). */
  const RangedDefault: bool := false

  /** One registry entry: host address, device mirror (Null until first
      materialised), size in bytes, whether the host holds the data, and
      whether the entry was registered as a range. */
  datatype Record = Record(hAdrs: Addr, dAdrs: Addr, bytes: nat, host: bool, ranged: bool)

  /** The registry: host address to record. */
  type Registry = map<Addr, Record>

  datatype Direction = HtoD | DtoH | DtoD

  /** A call into the device backend. */
  datatype Event =
    | DeviceSetup                               // initialising the device context
    | Alloc(dev: Addr, bytes: nat)              // a device allocation returning `dev`
    | Copy(dir: Direction, dst: Addr, src: Addr, bytes: nat, async: bool)

  /** The fatal conditions of the registry. */
  datatype Error =
    | AlreadyPresent    // Insert on a registered, non-ranged address
    | AlreadyRanged     // Insert on a registered, ranged address
    | UnknownAddress    // Erase or Adrs on an address that is neither registered nor in a block
    | NoDeviceSupport   // device materialisation in a build without device support

  datatype Result<T> = Ok(value: T) | Err(error: Error)

  /** The value of the shift amount once Setup has decided whether to shift. */
  function ShiftFor(shifted: bool): nat {
    if shifted then XsOffset else 0
  }

  /** xsShift: the identity unless shifting is on, otherwise `shift` words lower. */
  function XsShift(p: Addr, shifted: bool, shift: nat): Addr
    requires shifted ==> shift <= p
  {
    if !shifted then p else p - shift
  }

  /** xsShift undoes the shift that Insert adds to every address it registers. */
  lemma XsShiftUndoesInsert(adrs: Addr, shifted: bool)
    ensures XsShift(adrs + ShiftFor(shifted), shifted, ShiftFor(shifted)) == adrs
  {
  }

  /** What every record of the registry satisfies: it is at least the shift
      (every key was shifted on the way in), it has no device mirror while it
      is host resident, and a record the device owns without a mirror is empty. */
  predicate RecordOk(r: Record, shift: nat) {
    && shift <= r.hAdrs
    && (r.host ==> r.dAdrs == Null)
    && (!r.host && r.dAdrs == Null ==> r.bytes == 0)
  }

  /** An entry of the registry: keyed by its own host address. */
  predicate EntryOk(key: Addr, r: Record, shift: nat) {
    r.hAdrs == key && RecordOk(r, shift)
  }

  /** A freshly registered record: host resident, no mirror. */
  function Fresh(key: Addr, bytes: nat, ranged: bool): Record {
    Record(key, Null, bytes, true, ranged)
  }

  /** Range's test: block `base` encloses `adrs` when `base <= adrs <= base + bytes`,
      the size in bytes being added as a count of words and the end included. */
  predicate Encloses(m: Registry, base: Addr, adrs: Addr) {
    base in m && base <= adrs <= base + m[base].bytes
  }

  /** No registered block encloses `adrs`. */
  predicate NoneEncloses(m: Registry, adrs: Addr) {
    forall b :: b in m ==> !Encloses(m, b, adrs)
  }

  /** Range may come back NULL: no block encloses `adrs`, or the block that
      does is registered at the null address itself. */
  predicate RangeMisses(m: Registry, adrs: Addr) {
    NoneEncloses(m, adrs) || Encloses(m, Null, adrs)
  }

  /** The record Known auto-registers at `adrs` inside block `base`: it runs
      from `adrs` to the end of the block, the offset being counted in words. */
  function SubRange(m: Registry, base: Addr, adrs: Addr): (r: Record)
    requires Encloses(m, base, adrs)
    ensures r.hAdrs == adrs && r.bytes + (adrs - base) == m[base].bytes
    ensures r.host && r.dAdrs == Null && r.ranged == RangedDefault
  {
    Fresh(adrs, m[base].bytes - (adrs - base), RangedDefault)
  }

  /** `after` is `before` with the sub-range of block `base` at `adrs` registered. */
  predicate SubRangeAdded(before: Registry, after: Registry, base: Addr, adrs: Addr) {
    && base != Null
    && adrs !in before
    && Encloses(before, base, adrs)
    && after == before[adrs := SubRange(before, base, adrs)]
  }

  /** `e` is the record Known(adrs, true) leaves at `adrs` when it reports the
      address as known: the registered one, or a new sub-range of an enclosing block. */
  ghost predicate Found(m: Registry, adrs: Addr, e: Record) {
    if adrs in m then e == m[adrs]
    else exists base :: base != Null && Encloses(m, base, adrs) && e == SubRange(m, base, adrs)
  }

  /** The outcome of resolving one record: the pointer for the kernel, the
      record afterwards and the backend calls made. */
  datatype Resolution = Resolution(result: Result<Addr>, rec: Record, events: seq<Event>)

  /** The part of Adrs that follows the registry lookup, on the record found:
      a host-resident record with the device off resolves to its unshifted host
      address; otherwise a record without a mirror is materialised (a device
      allocation when it has bytes, one asynchronous host-to-device copy, and the
      device now holds the data), and the mirror is returned. */
  function Resolve(rec: Record, cuda: bool, nvcc: bool, devAlloc: Addr, shifted: bool, shift: nat): (o: Resolution)
    requires devAlloc != Null
    requires shifted ==> shift <= rec.hAdrs
    ensures o.rec.hAdrs == rec.hAdrs && o.rec.bytes == rec.bytes && o.rec.ranged == rec.ranged
    ensures RecordOk(rec, shift) ==> RecordOk(o.rec, shift)
    ensures o.result.Err? ==> o.result.error == NoDeviceSupport && o.rec == rec && o.events == []
    ensures o.result.Err? <==> !nvcc && !(rec.host && !cuda) && rec.dAdrs == Null
    ensures o.rec != rec ==> rec.dAdrs == Null && !o.rec.host
    ensures o.events != [] ==> o.events[|o.events| - 1] == Copy(HtoD, o.rec.dAdrs, rec.hAdrs, rec.bytes, true)
    ensures |o.events| <= 2
  {
    if rec.host && !cuda then
      Resolution(Ok(XsShift(rec.hAdrs, shifted, shift)), rec, [])
    else if rec.dAdrs != Null then
      Resolution(Ok(rec.dAdrs), rec, [])
    else if !nvcc then
      Resolution(Err(NoDeviceSupport), rec, [])
    else
      var withMirror := if rec.bytes > 0 then rec.(dAdrs := devAlloc) else rec;
      var allocs := if rec.bytes > 0 then [Alloc(devAlloc, rec.bytes)] else [];
      Resolution(Ok(withMirror.dAdrs), withMirror.(host := false),
                 allocs + [Copy(HtoD, withMirror.dAdrs, rec.hAdrs, rec.bytes, true)])
  }

  /** With the device off, a host-resident record resolves to its unshifted
      host address and no backend call is made. */
  lemma ResolveHostOnly(rec: Record, nvcc: bool, devAlloc: Addr, shifted: bool)
    requires devAlloc != Null && rec.host
    requires shifted ==> XsOffset <= rec.hAdrs
    ensures var o := Resolve(rec, false, nvcc, devAlloc, shifted, ShiftFor(shifted));
            o == Resolution(Ok(XsShift(rec.hAdrs, shifted, ShiftFor(shifted))), rec, [])
  {
  }

  /** First materialisation of a fresh record with the device on: one device
      allocation of its size exactly when it has bytes, exactly one copy of all
      its bytes host to device, and the device holds the data afterwards. */
  lemma ResolveMaterialises(rec: Record, devAlloc: Addr, shifted: bool, shift: nat)
    requires devAlloc != Null && (shifted ==> shift <= rec.hAdrs)
    requires rec.host && rec.dAdrs == Null
    ensures var o := Resolve(rec, true, true, devAlloc, shifted, shift);
            && o.result == Ok(o.rec.dAdrs)
            && !o.rec.host
            && (rec.bytes > 0 ==> o.rec.dAdrs == devAlloc && o.events == [Alloc(devAlloc, rec.bytes), Copy(HtoD, devAlloc, rec.hAdrs, rec.bytes, true)])
            && (rec.bytes == 0 ==> o.rec.dAdrs == Null && o.events == [Copy(HtoD, Null, rec.hAdrs, 0, true)])
  {
  }

  /** A record that has to be materialised in a build without device support
      is fatal: nothing changes and no backend call is made. */
  lemma ResolveNeedsDeviceSupport(rec: Record, cuda: bool, devAlloc: Addr, shifted: bool, shift: nat)
    requires devAlloc != Null && (shifted ==> shift <= rec.hAdrs)
    requires !(rec.host && !cuda) && rec.dAdrs == Null
    ensures Resolve(rec, cuda, false, devAlloc, shifted, shift) == Resolution(Err(NoDeviceSupport), rec, [])
  {
  }

  /** Materialisation happens once: resolving a record again after it was
      materialised with bytes gives the same mirror, leaves it as it is and
      makes no backend call, whatever the allocator would return. */
  lemma ResolveIdempotent(rec: Record, cuda: bool, nvcc: bool, a1: Addr, a2: Addr, shifted: bool, shift: nat)
    requires a1 != Null && a2 != Null && (shifted ==> shift <= rec.hAdrs)
    requires rec.bytes > 0
    ensures var o1 := Resolve(rec, cuda, nvcc, a1, shifted, shift);
            o1.result.Ok? && !o1.rec.host ==>
              Resolve(o1.rec, cuda, nvcc, a2, shifted, shift) == Resolution(o1.result, o1.rec, [])
  {
  }

  /** A zero-byte record keeps a null mirror, so every resolution with the
      device on copies again. */
  lemma ResolveZeroBytesRecopies(rec: Record, a1: Addr, a2: Addr, shifted: bool, shift: nat)
    requires a1 != Null && a2 != Null && (shifted ==> shift <= rec.hAdrs)
    requires rec.bytes == 0 && rec.dAdrs == Null
    ensures var o1 := Resolve(rec, true, true, a1, shifted, shift);
            var o2 := Resolve(o1.rec, true, true, a2, shifted, shift);
            o1.events == o2.events == [Copy(HtoD, Null, rec.hAdrs, 0, true)] && o2.rec == o1.rec
  {
  }
}
