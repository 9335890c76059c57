/**
 * The raw copy helpers of general/mm.cpp (H2D, D2H, D2D and memcpy). They
 * touch no registry state, so each is a function giving back the pointer
 * the helper returns and the one copy it performs, if any. On the device
 * path a helper returns whatever the backend primitive returns; that result
 * is the parameter `backendRet`.
 */
module Transfers {
  import opened MemoryModel

  /** The copy a helper performs. */
  datatype Action =
    | NoCopy                                     // nothing at all
    | HostCopy(dst: Addr, src: Addr, bytes: nat) // a plain byte copy in host memory
    | Backend(call: Event)                       // one call to the device copy primitive

  datatype Transfer = Transfer(ret: Addr, action: Action)

  /** The helper for direction `dir`: zero bytes does nothing and returns
      `dest`; with the device off the bytes are copied in host memory and `dest`
      is returned; otherwise the backend primitive for `dir` is called once,
      synchronously or not as `async` says, and its result is returned. */
  function Dispatch(dir: Direction, dest: Addr, src: Addr, bytes: nat, async: bool, cuda: bool, backendRet: Addr): (t: Transfer)
    ensures t.ret == if t.action.Backend? then backendRet else dest
    ensures t.action == NoCopy <==> bytes == 0
    ensures bytes > 0 && !cuda ==> t.action == HostCopy(dest, src, bytes)
    ensures bytes > 0 && cuda ==> t.action == Backend(Copy(dir, dest, src, bytes, async))
  {
    if bytes == 0 then Transfer(dest, NoCopy)
    else if !cuda then Transfer(dest, HostCopy(dest, src, bytes))
    else Transfer(backendRet, Backend(Copy(dir, dest, src, bytes, async)))
  }

  /** Every copy a helper makes moves exactly `bytes` from `src` to `dest`. */
  predicate Moves(a: Action, dest: Addr, src: Addr, bytes: nat) {
    match a
    case NoCopy => bytes == 0
    case HostCopy(d, s, n) => d == dest && s == src && n == bytes
    case Backend(call) => call.Copy? && call.dst == dest && call.src == src && call.bytes == bytes
  }

  function H2D(dest: Addr, src: Addr, bytes: nat, async: bool, cuda: bool, backendRet: Addr): (t: Transfer)
    ensures t.ret == (if t.action.Backend? then backendRet else dest) && Moves(t.action, dest, src, bytes)
    ensures t.action.Backend? <==> bytes > 0 && cuda
    ensures t.action.Backend? ==> t.action.call.dir == HtoD && t.action.call.async == async
  {
    Dispatch(HtoD, dest, src, bytes, async, cuda, backendRet)
  }

  function D2H(dest: Addr, src: Addr, bytes: nat, async: bool, cuda: bool, backendRet: Addr): (t: Transfer)
    ensures t.ret == (if t.action.Backend? then backendRet else dest) && Moves(t.action, dest, src, bytes)
    ensures t.action.Backend? <==> bytes > 0 && cuda
    ensures t.action.Backend? ==> t.action.call.dir == DtoH && t.action.call.async == async
  {
    Dispatch(DtoH, dest, src, bytes, async, cuda, backendRet)
  }

  function D2D(dest: Addr, src: Addr, bytes: nat, async: bool, cuda: bool, backendRet: Addr): (t: Transfer)
    ensures t.ret == (if t.action.Backend? then backendRet else dest) && Moves(t.action, dest, src, bytes)
    ensures t.action.Backend? <==> bytes > 0 && cuda
    ensures t.action.Backend? ==> t.action.call.dir == DtoD && t.action.call.async == async
  {
    Dispatch(DtoD, dest, src, bytes, async, cuda, backendRet)
  }

  /** memcpy is the synchronous device-to-device helper. */
  function Memcpy(dest: Addr, src: Addr, bytes: nat, cuda: bool, backendRet: Addr): (t: Transfer)
    ensures t.ret == (if t.action.Backend? then backendRet else dest) && Moves(t.action, dest, src, bytes)
    ensures t.action.Backend? <==> bytes > 0 && cuda
    ensures t.action.Backend? ==> t.action.call == Copy(DtoD, dest, src, bytes, false)
  {
    D2D(dest, src, bytes, false, cuda, backendRet)
  }

  /** With zero bytes every helper returns `dest` and makes no call at all. */
  lemma ZeroBytesIsNoOp(dest: Addr, src: Addr, async: bool, cuda: bool, backendRet: Addr)
    ensures H2D(dest, src, 0, async, cuda, backendRet) == Transfer(dest, NoCopy)
    ensures D2H(dest, src, 0, async, cuda, backendRet) == Transfer(dest, NoCopy)
    ensures D2D(dest, src, 0, async, cuda, backendRet) == Transfer(dest, NoCopy)
    ensures Memcpy(dest, src, 0, cuda, backendRet) == Transfer(dest, NoCopy)
  {
  }
}
