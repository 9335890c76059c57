/**
 * The memory manager of general/mm.cpp: one object owning the registry
 * `mng`, the two debug-shift globals and, as a ghost log, the calls it makes
 * into the device backend. A fatal trap of the source is an `Err` result
 * that leaves the registry as it was at the trap.
 */
module MemoryManager {
  import opened MemoryModel

  class Manager {
    /** Whether the XS environment variable is set (read by Setup). */
    const xsEnv: bool
    /** Whether the library was compiled with device support. */
    const nvcc: bool

    /** Whether the registry exists yet (Setup has run). */
    var ready: bool
    var mng: Registry
    var xsShifted: bool
    var xsShift: nat
    /** Every backend call made so far, oldest first. */
    ghost var log: seq<Event>

    ghost predicate Valid()
      reads this
    {
      && xsShift == ShiftFor(xsShifted)
      && (!ready ==> mng == map[] && !xsShifted)
      && (forall k :: k in mng ==> EntryOk(k, mng[k], xsShift))
    }

    /** The state at program start: no registry, no shift. */
    constructor (xsEnv: bool, nvcc: bool)
      ensures Valid() && !ready && log == []
      ensures this.xsEnv == xsEnv && this.nvcc == nvcc
    {
      this.xsEnv := xsEnv;
      this.nvcc := nvcc;
      ready := false;
      mng := map[];
      xsShifted := false;
      xsShift := 0;
      log := [];
    }

    /** Creates the empty registry, initialises the device context and
        turns the debug shift on when XS is set. */
    method Setup()
      requires Valid() && !ready
      modifies this
      ensures Valid() && ready && mng == map[]
      ensures xsShifted == xsEnv && xsShift == ShiftFor(xsEnv)
      ensures log == old(log) + [DeviceSetup]
    {
      mng := map[];
      ready := true;
      log := log + [DeviceSetup];
      xsShifted := xsEnv;
      if xsShifted {
        xsShift := XsOffset;
      }
    }

    /** The base of some registered block enclosing `adrs`, or Null when
        there is none. The blocks are visited in an unspecified order. */
    method Range(adrs: Addr) returns (base: Addr)
      requires ready && Valid()
      requires adrs !in mng
      ensures Encloses(mng, base, adrs) || (base == Null && NoneEncloses(mng, adrs))
    {
      var todo := mng.Keys;
      while todo != {}
        invariant todo <= mng.Keys
        invariant forall b :: b in mng && b !in todo ==> !Encloses(mng, b, adrs)
        decreases todo
      {
        var key :| key in todo;
        var record := mng[key];
        todo := todo - {key};
        if record.hAdrs <= adrs {
          var end := record.hAdrs + record.bytes;
          if adrs <= end {
            return record.hAdrs;
          }
        }
      }
      return Null;
    }

    /** Whether `adrs` is registered; when it is not and `insertIfInRange`
        holds, an address inside a registered block is registered as the
        sub-range from `adrs` to the end of that block. */
    method Known(adrs: Addr, insertIfInRange: bool) returns (known: bool)
      requires ready && Valid()
      modifies this
      decreases if insertIfInRange then 2 else 0
      ensures Valid() && ready
      ensures xsShifted == old(xsShifted) && xsShift == old(xsShift) && log == old(log)
      ensures adrs in old(mng) ==> known && mng == old(mng)
      ensures adrs !in old(mng) && !insertIfInRange ==> !known && mng == old(mng)
      ensures adrs !in old(mng) && insertIfInRange && !known ==>
                mng == old(mng) && RangeMisses(old(mng), adrs)
      ensures adrs !in old(mng) && insertIfInRange && known ==>
                exists base :: SubRangeAdded(old(mng), mng, base, adrs)
      ensures known <==> adrs in mng
    {
      if adrs in mng {
        return true;
      }
      if !insertIfInRange {
        return false;
      }
      var base := Range(adrs);
      if base == Null {
        return false;
      }
      var bytes := mng[base].bytes;
      assert 0 < bytes;
      assert base < adrs;
      var offset := adrs - base;
      ghost var before := mng;
      // Insert re-applies the shift, so it gets the unshifted probe; the source
      // passes the probe itself (Findings.KnownInRangeAsWritten).
      var registered := Insert(XsShift(adrs, xsShifted, xsShift), bytes - offset, 1, RangedDefault);
      assert registered == Ok(adrs);
      assert SubRangeAdded(before, mng, base, adrs);
      return true;
    }

    /** Registers `size * sizeOfT` bytes at `adrs` shifted by the debug shift,
        setting the registry up first if need be, and returns the key. An
        address already registered is fatal. */
    method Insert(adrs: Addr, size: nat, sizeOfT: nat, ranged: bool) returns (r: Result<Addr>)
      requires Valid()
      modifies this
      decreases 1
      ensures Valid() && ready
      ensures old(ready) ==> xsShifted == old(xsShifted) && xsShift == old(xsShift) && log == old(log)
      ensures !old(ready) ==> xsShifted == xsEnv && xsShift == ShiftFor(xsEnv) && log == old(log) + [DeviceSetup]
      ensures var key := adrs + xsShift;
              if key in old(mng) then
                && r == Err(if old(mng)[key].ranged then AlreadyRanged else AlreadyPresent)
                && mng == old(mng)
              else
                && r == Ok(key)
                && mng == old(mng)[key := Fresh(key, size * sizeOfT, ranged)]
    {
      if !ready {
        Setup();
      }
      var hAdrs := adrs + xsShift;
      var known := Known(hAdrs, false);
      if known {
        if !mng[hAdrs].ranged {
          return Err(AlreadyPresent);
        }
        return Err(AlreadyRanged);
      }
      mng := mng[hAdrs := Record(hAdrs, Null, size * sizeOfT, true, ranged)];
      return Ok(hAdrs);
    }

    /** Removes the registered address `adrs` and returns it unshifted. An
        unregistered address is fatal. */
    method Erase(adrs: Addr) returns (r: Result<Addr>)
      requires ready && Valid()
      modifies this
      ensures Valid() && ready
      ensures xsShifted == old(xsShifted) && xsShift == old(xsShift) && log == old(log)
      ensures adrs in old(mng) ==>
                && (xsShifted ==> xsShift <= adrs)
                && r == Ok(XsShift(adrs, xsShifted, xsShift))
                && mng == old(mng) - {adrs}
      ensures adrs !in old(mng) ==> r == Err(UnknownAddress) && mng == old(mng)
    {
      var known := Known(adrs, false);
      if !known {
        return Err(UnknownAddress);
      }
      mng := mng - {adrs};
      return Ok(XsShift(adrs, xsShifted, xsShift));
    }

    /** The pointer a kernel should use for `adrs`. The address is looked up,
        auto-registering it if it lies inside a block; then the record found is
        resolved as `Resolve` says. `cuda` is whether device execution is on;
        `devAlloc` is what the device allocator returns if it is called. The
        lookup uses the corrected Known (see Findings.KnownInRangeAsWritten). */
    method Adrs(adrs: Addr, cuda: bool, devAlloc: Addr) returns (r: Result<Addr>)
      requires ready && Valid()
      requires devAlloc != Null
      modifies this
      ensures Valid() && ready
      ensures xsShifted == old(xsShifted) && xsShift == old(xsShift)
      ensures r == Err(UnknownAddress) ==>
                && adrs !in old(mng) && RangeMisses(old(mng), adrs)
                && mng == old(mng) && log == old(log)
      ensures r != Err(UnknownAddress) ==>
                exists e :: && Found(old(mng), adrs, e)
                            && EntryOk(adrs, e, xsShift)
                            && var o := Resolve(e, cuda, nvcc, devAlloc, xsShifted, xsShift);
                               && r == o.result
                               && mng == old(mng)[adrs := o.rec]
                               && log == old(log) + o.events
    {
      var known := Known(adrs, true);
      if !known {
        return Err(UnknownAddress);
      }
      ghost var entry := mng[adrs];
      ghost var logged := log;
      ghost var o := Resolve(entry, cuda, nvcc, devAlloc, xsShifted, xsShift);
      assert Found(old(mng), adrs, entry) by {
        if adrs !in old(mng) {
          var base :| SubRangeAdded(old(mng), mng, base, adrs);
          assert entry == SubRange(old(mng), base, adrs);
        }
      }
      assert mng == old(mng)[adrs := entry];
      var record := mng[adrs];
      if record.host && !cuda {
        return Ok(XsShift(record.hAdrs, xsShifted, xsShift));
      }
      if record.dAdrs == Null {
        if !nvcc {
          return Err(NoDeviceSupport);
        }
        var bytes := record.bytes;
        if bytes > 0 {
          mng := mng[adrs := mng[adrs].(dAdrs := devAlloc)];
          log := log + [Alloc(devAlloc, bytes)];
        }
        log := log + [Copy(HtoD, mng[adrs].dAdrs, mng[adrs].hAdrs, bytes, true)];
        mng := mng[adrs := mng[adrs].(host := false)];
      }
      assert mng == old(mng)[adrs := o.rec];
      assert log == logged + o.events;
      return Ok(mng[adrs].dAdrs);
    }

    /** Copies a device-resident record's bytes from host to device; a
        host-resident record is left alone. */
    method Push(adrs: Addr)
      requires ready && Valid() && adrs in mng
      modifies this`log
      ensures Valid()
      ensures var rec := mng[adrs];
              log == old(log) + (if rec.host then [] else [Copy(HtoD, rec.dAdrs, rec.hAdrs, rec.bytes, false)])
    {
      var record := mng[adrs];
      if record.host {
        return;
      }
      log := log + [Copy(HtoD, record.dAdrs, record.hAdrs, record.bytes, false)];
    }

    /** Copies a device-resident record's bytes from device to host; a
        host-resident record is left alone. */
    method Pull(adrs: Addr)
      requires ready && Valid() && adrs in mng
      modifies this`log
      ensures Valid()
      ensures var rec := mng[adrs];
              log == old(log) + (if rec.host then [] else [Copy(DtoH, rec.hAdrs, rec.dAdrs, rec.bytes, false)])
    {
      var record := mng[adrs];
      if record.host {
        return;
      }
      log := log + [Copy(DtoH, record.hAdrs, record.dAdrs, record.bytes, false)];
    }
  }
}
