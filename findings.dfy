/**
 * Known's sub-range registration as general/mm.cpp writes it. The probe
 * address is already a registry key in shifted form, yet it is handed to
 * Insert, which adds the debug shift again. With shifting on, Known then
 * reports the probe as known while the registry holds it only under a second
 * shift, and a second lookup of the same probe traps in Insert.
 * MemoryManager.Manager.Known is the corrected form, which hands Insert the
 * unshifted probe.
 */
module Findings {
  import opened MemoryModel

  /** Known(adrs, true) on an unregistered probe that Range placed in block
      `base`, as written: Insert is called with the probe itself and shifts it
      by `shift` once more; a trap inside Insert is an `Err`. */
  function KnownInRangeAsWritten(m: Registry, adrs: Addr, base: Addr, shift: nat): (r: Result<Registry>)
    requires base != Null && adrs !in m && Encloses(m, base, adrs)
    ensures shift == 0 ==> r == Ok(m[adrs := SubRange(m, base, adrs)])
    ensures r.Ok? ==> (adrs in r.value <==> shift == 0)
  {
    var key := adrs + shift;
    var bytes := m[base].bytes - (adrs - base);
    if key in m then Err(if m[key].ranged then AlreadyRanged else AlreadyPresent)
    else Ok(m[key := Fresh(key, bytes, RangedDefault)])
  }

  /** One block of 16 bytes registered with shifting on. */
  function ShiftedBlock(): Registry {
    map[XsOffset := Fresh(XsOffset, 16, false)]
  }

  /** A probe one word into that block: Known reports it known, but only the
      doubly shifted key is registered, and looking the probe up again traps. */
  lemma AsWrittenLosesProbe()
    ensures var r := KnownInRangeAsWritten(ShiftedBlock(), XsOffset + 1, XsOffset, XsOffset);
            && r.Ok?
            && XsOffset + 1 !in r.value
            && 2 * XsOffset + 1 in r.value
            && KnownInRangeAsWritten(r.value, XsOffset + 1, XsOffset, XsOffset) == Err(AlreadyPresent)
  {
  }
}
