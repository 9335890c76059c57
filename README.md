# MFEM host/device memory registry, modelled in Dafny

This project models the memory manager of MFEM's `general/mm.cpp`. The
manager keeps a registry that maps a host address to a record
`{h_adrs, d_adrs, bytes, host, ranged}`. It has these operations:

- `Insert` and `Erase` register and deregister buffers.
- `Range` finds a registered block that encloses a probe pointer.
- `Known` looks an address up. If asked, it registers a pointer into a block as a sub-range record.
- `Adrs` gives the pointer a kernel should use. In device mode it creates the device mirror lazily: an allocation when the block has bytes, and one host-to-device copy.
- `Push` and `Pull` are explicit host/device syncs.
- `H2D`, `D2H`, `D2D` and `memcpy` are the raw copy helpers.
- The XS debug mode shifts every registry key by 2^48 words. Dereferencing the pointer Insert returns, without resolving it through Adrs first, then faults.

Files:

- `model.dfy` (module `MemoryModel`) holds the data model: addresses, `Record`, backend `Event`s and error kinds. It also holds the record invariant `RecordOk`, Range's enclosure test `Encloses`, the sub-range record `SubRange`, and `Resolve`, the function that specifies what `Adrs` does once the record is found.
- `manager.dfy` (module `MemoryManager`) holds the class `Manager`. It owns the registry `mng`, the globals `xs_shifted`/`xs_shift`, and a ghost log of every backend call. Each of its methods is specified by how it changes the registry and the log. `Valid()` is preserved throughout: every key is its record's own host address and is at least the shift, a host-resident record has no mirror, and a device-owned record without a mirror has zero bytes.
- `transfers.dfy` (module `Transfers`) holds the copy helpers, as functions that return the pointer and the one copy performed.
- `findings.dfy` (module `Findings`) holds Known's sub-range registration as written in the source (see Findings).
- `scenarios.dfy` (module `Scenarios`) holds client methods that go through whole buffer lifecycles, proved from the method contracts alone.

Modelling choices:

- Addresses are natural numbers counted in `size_t` words, the unit of every pointer addition in the source. `Null` is 0.
- A fatal trap (`__builtin_trap`, `mfem_error`) becomes an `Err` result. The registry is left as it was at the point of the trap; nothing is rolled back, as in the source.
- Some assertions only guard against misuse that the source does not handle. These become preconditions: `assert(!mng)` in Setup, `assert(not known)` in Range, and the debug-only `MFEM_ASSERT(Known(adrs))` in Push and Pull.
- Range, Known, Erase, Adrs, Push and Pull dereference the registry pointer `mng` without checking it (mm.cpp:47, 63, 123, 137, 164, 173); only Insert creates the registry on demand (mm.cpp:91). Those six operations therefore require `ready`, i.e. that Setup has run.
- The two C `assert`s in Known (lines 72-73) become Dafny `assert`s, and they are proved to hold.
- Some inputs are parameters:
  - device execution on or off (`config::Get().Cuda()`) is the `cuda` argument of `Adrs` and of the copy helpers;
  - device-compiler support (`config::nvcc()`) and the XS environment variable are constants of the `Manager`;
  - the device allocator's result is the non-null argument `devAlloc` of `Adrs`.
- The registry's iteration order is not visible, so `Range` visits the blocks in an unspecified order. Its contract holds for every order.
- Range's test is kept as written: `base <= adrs <= base + bytes`. The byte count is added as a number of words, and the end is inclusive. Known's offset is likewise counted in words. Because of this, the sub-range size `bytes - offset` never underflows.
- The header `kernels/mm.hpp` is not part of this model, so the default arguments are taken as `false`: Known's `insert_if_in_range` where Insert and Erase call it, and Insert's `ranged` where Known calls it (`RangedDefault`).

Points of the code that the model keeps as they are:

- A block encloses a probe when `h_adrs <= adrs <= h_adrs + bytes` in words (mm.cpp:52-55): the end is included, and the byte count is added as a word count.
- A sub-range is registered through Insert with Insert's default `ranged` argument (mm.cpp:76), so it is not marked as ranged.
- With the device off, Adrs returns `xsShift(h_adrs)` only for a host-resident record (mm.cpp:142). A device-resident record resolves to its mirror even with the device off (mm.cpp:144-157).
- Push and Pull check that the address is known only in a debug build (mm.cpp:163, 172).
- On the device path the copy helpers return the backend primitive's own result (mm.cpp:190, 199, 208). That primitive is not part of this model, so its result is the parameter `backendRet`; every other path returns `dest`.

## Model

| member | source | states |
|---|---|---|
| MemoryModel.XsShiftUndoesInsert | general/mm.cpp:26-30 | xsShift is the identity when shifting is off and subtracts 2^48 words when it is on. Either way it undoes the shift that Insert adds. |
| MemoryModel.SubRange | general/mm.cpp:70-76 | The sub-range record registered at a probe inside block `base` is fresh: host resident, no mirror, keyed at the probe. Its size plus the probe's word offset equals the block's byte count, so the size never underflows. |
| MemoryModel.Resolve | general/mm.cpp:140-157 | Resolving a record changes only its mirror and `host` flag, and it preserves the record invariant. It fails exactly when a record that has to be materialised (not host resident with the device off, and with no mirror) is resolved without device support; that failure changes nothing and calls nothing. A changed record had no mirror and is now device owned. At most two backend calls are made, and the last one is the asynchronous host-to-device copy of all the bytes. |
| MemoryModel.ResolveHostOnly | general/mm.cpp:142 | With the device off, a host-resident record resolves to its unshifted host address. The record is unchanged and no backend call is made. |
| MemoryModel.ResolveMaterialises | general/mm.cpp:143-156 | The first resolution of a fresh record with the device on allocates its bytes only when they are non-zero and copies them host to device exactly once. The record becomes device owned, and Resolve returns its mirror (Null for a zero-byte record). |
| MemoryModel.ResolveNeedsDeviceSupport | general/mm.cpp:144-150 | A record that has to be materialised, resolved in a build without device support, is fatal: Resolve returns `NoDeviceSupport`, leaves the record as it was and makes no backend call. |
| MemoryModel.ResolveIdempotent | general/mm.cpp:144-157 | Once a record with bytes is materialised, resolving it again returns the same mirror, leaves the record alone and makes no backend call, whatever the allocator would return. |
| MemoryModel.ResolveZeroBytesRecopies | general/mm.cpp:151-155 | A zero-byte record keeps a null mirror, so each resolution with the device on issues another zero-byte copy. |
| MemoryManager.Manager.constructor | general/mm.cpp:21-22 | At program start there is no registry and no shift. |
| MemoryManager.Manager.Setup | general/mm.cpp:33-42 | Setup creates an empty registry and initialises the device context once. It turns shifting on, with a shift of 2^48 words, exactly when XS is set. |
| MemoryManager.Manager.Range | general/mm.cpp:45-58 | For an address that is not a key, Range returns a registered base with `base <= adrs <= base + bytes`, or Null when no block satisfies that. The registry is not changed. |
| MemoryManager.Manager.Known | general/mm.cpp:61-78 | For a key, Known returns true and changes nothing. Without range insertion it returns false on any other address. With range insertion it either registers exactly the sub-range of an enclosing non-null block at the probe and returns true, or returns false with the registry unchanged because no block encloses the probe (or the block Range found is the one at Null). In every case the result is true exactly when the probe is a key afterwards. This is the corrected form of mm.cpp:76 (see Findings). |
| MemoryManager.Manager.Insert | general/mm.cpp:85-116 | Insert sets the registry up first if needed. On an unregistered key `adrs + xs_shift`, it adds exactly one fresh record of `size*size_of_T` bytes with the given `ranged` flag, leaves every other entry alone and returns the key. On a registered key it is fatal, with the error telling a non-ranged record from a ranged one, and the registry is unchanged. |
| MemoryManager.Manager.Erase | general/mm.cpp:121-128 | On a key, Erase removes exactly that key and returns `xsShift(adrs)`. On an unknown address it is fatal and changes nothing. |
| MemoryManager.Manager.Adrs | general/mm.cpp:133-158 | If the address is neither a key nor inside a block (or the block Range found is the one at Null), Adrs is fatal and changes nothing. Otherwise it resolves the record found, either the registered one or the newly registered sub-range, as Resolve says. The new registry is the old one with that record in place, and the log grows by exactly Resolve's calls. With XS set, a sub-range probe is resolved through the corrected Known (see Findings). |
| MemoryManager.Manager.Push | general/mm.cpp:161-167 | Push modifies only the log. A host-resident record logs nothing. Otherwise Push logs exactly one synchronous host-to-device copy of the record's bytes. |
| MemoryManager.Manager.Pull | general/mm.cpp:170-176 | Pull modifies only the log. A host-resident record logs nothing. Otherwise Pull logs exactly one synchronous device-to-host copy of the record's bytes. |
| Transfers.Dispatch | general/mm.cpp:185-209 | It does nothing and returns `dest` exactly when `bytes` is zero. Otherwise, with the device off, it does a host byte copy of `bytes` and returns `dest`; with the device on, it makes one backend copy in the given direction with the `async` flag and returns the backend's result. |
| Transfers.H2D | general/mm.cpp:185-191 | H2D moves exactly `bytes` from `src` to `dest`. It calls the backend, host to device with the `async` flag, exactly when there are bytes and the device is on, and then returns the backend's result; otherwise it returns `dest`. |
| Transfers.D2H | general/mm.cpp:194-200 | D2H moves exactly `bytes` from `src` to `dest`. It calls the backend, device to host with the `async` flag, exactly when there are bytes and the device is on, and then returns the backend's result; otherwise it returns `dest`. |
| Transfers.D2D | general/mm.cpp:203-209 | D2D moves exactly `bytes` from `src` to `dest`. It calls the backend, device to device with the `async` flag, exactly when there are bytes and the device is on, and then returns the backend's result; otherwise it returns `dest`. |
| Transfers.Memcpy | general/mm.cpp:179-182 | memcpy moves exactly `bytes` from `src` to `dest`. It calls the backend exactly when there are bytes and the device is on, always as a synchronous device-to-device copy, and then returns the backend's result; otherwise it returns `dest`. |
| Transfers.ZeroBytesIsNoOp | general/mm.cpp:179-209 | With zero bytes, every copy helper returns `dest` and makes no call at all. |
| Findings.KnownInRangeAsWritten | general/mm.cpp:68-76 | This is Known's sub-range registration as written, with the probe shifted again inside Insert. It agrees with the corrected registration when the shift is zero. When it succeeds, the probe is a key afterwards only if the shift is zero. |
| Findings.AsWrittenLosesProbe | general/mm.cpp:76 | The counterexample: shifting on, one 16-byte block, and a probe one word inside it. As written, the probe is reported known but registered only under a double shift, and looking it up again traps. |
| Scenarios.DeviceLifecycle | general/mm.cpp:85-176 | In device mode, 100 eight-byte values are registered with 800 bytes. The first Adrs returns the new mirror and the second returns the same mirror. Pull copies the bytes back, Erase returns the caller's pointer, and afterwards the address is unknown. The whole backend trace is one setup, one 800-byte allocation, one host-to-device copy and one device-to-host copy. |
| Scenarios.HostLifecycle | general/mm.cpp:133-176 | In host mode, Adrs returns the caller's own pointer, and Push and Pull add nothing to the backend trace. |
| Scenarios.SubRangeLookup | general/mm.cpp:45-78 | For a pointer three words into a 32-byte block, Range returns the block, Known registers 29 bytes there, and Adrs then resolves the pointer. A pointer 32 words in is also taken as inside the block. With XS set, the 29 bytes land at the probe only because Known is the corrected registration (see Findings). |
| Scenarios.Misuse | general/mm.cpp:98-128 | Registering an address twice is fatal, and so is erasing an unregistered address. |

## Findings

| source | as written | input that shows it | evidently intended | confidence | as-written member | corrected member |
|---|---|---|---|---|---|---|
| general/mm.cpp:76 | `Known` registers the sub-range with `Insert(adrs, ...)`. `adrs` is already a shifted registry address, and Insert adds `xs_shift` again (line 92). | XS set, one 16-byte block at key 2^48, and `Known(2^48 + 1, true)`. It returns true but registers key 2^49 + 1, so the probe itself is left unregistered. A second `Known` on the same pointer traps in Insert. | The sub-range is registered at the probe itself, i.e. Insert is given `xsShift(adrs)`. | not executed; high (the shift is applied twice whenever XS is set) | Findings.KnownInRangeAsWritten, Findings.AsWrittenLosesProbe | MemoryManager.Manager.Known |

## Left out

- Pointers and `size_t` are unbounded naturals here. The 64-bit wrap-around of pointer addition and subtraction, and of `size*size_of_T`, is not modelled.
- The contents of host and device memory are not modelled. Copies and allocations are logged as events, but no bytes are moved.
- Asynchronous completion is not modelled. The stream handle passed with the asynchronous copy is not modelled either.
- The `dbg` logging is left out, and so are the `file` and `line` arguments of `Insert`.
- The `mm::Get()` singleton is left out: the model has one `Manager` object.
- Device memory is never freed on Erase, in the source and in the model alike.
- MemoryManager.Manager.Insert: a registered ranged address is fatal here, as in a debug build. A release build compiles out that `MFEM_ASSERT` and overwrites the record.
- The backend primitives themselves are not modelled, and neither is the device context's initialisation. They are foreign calls: they appear only as events in the log, and the pointer a copy primitive returns is the parameter `backendRet` of the copy helpers.
