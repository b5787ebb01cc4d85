/** The factory side of the module: building a signal mask, blocking it for
    the process, and wrapping the descriptor the kernel returns in a handle
    whose reads yield status records. The C library is represented by what
    its calls return: whether `sigaddset` accepts a signal number (a predicate
    supplied by the caller), the descriptor `signalfd` hands back, and the
    bytes `read` returns for a descriptor and a byte count. */
module Signals {

  import opened Results
  import opened Codec
  import Layout
  import Record

  /** The `how` argument of `sigprocmask` that adds to the blocked set, the
      only one the module passes. */
  const SIG_BLOCK: int := 0

  /** The two signals the kernel never lets a process block (Linux x86/ARM numbers). */
  const SIGKILL: int := 9
  const SIGSTOP: int := 19

  /** Bytes in a glibc `sigset_t`, which `sigemptyset` and `sigaddset` write. */
  const SigsetBytes: nat := 128

  /** A Python int passed to a C function without declared argument types:
      ctypes hands it over as a C `int`, keeping its low 32 bits as a
      two's-complement value. */
  function CInt(s: int): (c: int)
    ensures -Two31 <= c < Two31
    ensures (s - c) % Two32 == 0
    ensures -Two31 <= s < Two31 ==> c == s
  {
    var u := s % Two32;
    if u < Two31 then u else u - Two32
  }

  /** A number beyond the C `int` range reaches the C library as another one:
      2^32 + 17 arrives as 17 (SIGCHLD). */
  lemma CIntWraps()
    ensures CInt(0x1_0000_0011) == 17
    ensures CInt(0xFFFF_FFFF) == -1
  {
  }

  /** The signal numbers as the C library receives them: what a mask built
      from the list contains. */
  function SignalSet(signals: seq<int>): set<int> {
    set s | s in signals :: CInt(s)
  }

  /** When every listed number fits a C `int`, the mask holds exactly the
      listed numbers. */
  lemma {:induction false} SignalSetInRange(signals: seq<int>)
    requires forall i :: 0 <= i < |signals| ==> -Two31 <= signals[i] < Two31
    ensures SignalSet(signals) == set s | s in signals
  {
    forall c | c in SignalSet(signals) ensures c in signals {
      var s :| s in signals && CInt(s) == c;
    }
    forall s | s in signals ensures s in SignalSet(signals) {
      assert CInt(s) == s;
    }
  }

  /** The process-wide set of blocked signals, which `sigprocmask` changes. */
  class Process {
    var blocked: set<int>

    /** SIGKILL and SIGSTOP are never blocked. */
    ghost predicate Valid()
      reads this
    {
      SIGKILL !in blocked && SIGSTOP !in blocked
    }

    constructor (blocked: set<int>)
      ensures Valid() && this.blocked == blocked - {SIGKILL, SIGSTOP}
    {
      this.blocked := blocked - {SIGKILL, SIGSTOP};
    }

    /** `sigprocmask(SIG_BLOCK, mask, NULL)`: the mask joins the blocked set,
        except SIGKILL and SIGSTOP, which the kernel silently leaves out; the
        call returns 0. Only the SIG_BLOCK form, the one `_block` uses, is
        modelled. */
    method SigProcMask(how: int, mask: set<int>) returns (ret: int)
      requires Valid() && how == SIG_BLOCK
      modifies this
      ensures Valid()
      ensures ret == 0
      ensures blocked == old(blocked) + (mask - {SIGKILL, SIGSTOP})
    {
      blocked := blocked + (mask - {SIGKILL, SIGSTOP});
      ret := 0;
    }
  }

  /** `ctypes.create_string_buffer(init, size)` when `init` is an integer: an
      array of `init` zero bytes. On that branch ctypes ignores `size`. */
  function CreateStringBuffer(init: nat, size: nat): (buf: seq<Byte>)
    ensures |buf| == init
    ensures forall k :: 0 <= k < |buf| ==> buf[k] == 0
  {
    seq(init, _ => 0)
  }

  /** The buffer `_Mask` allocates as written, `create_string_buffer(0, 128)`:
      the 0 is taken as the length, so it holds no bytes at all. */
  function MaskBufferAsWritten(): (buf: seq<Byte>)
    ensures |buf| < SigsetBytes
  {
    CreateStringBuffer(0, Layout.SigMaskBufSize)
  }

  /** The buffer evidently meant, `create_string_buffer(128)`: room for a
      whole `sigset_t`. */
  function MaskBuffer(): (buf: seq<Byte>)
    ensures |buf| == Layout.SigMaskBufSize && SigsetBytes <= |buf|
  {
    CreateStringBuffer(Layout.SigMaskBufSize, Layout.SigMaskBufSize)
  }

  /** `sigemptyset(buf)` writes a whole `sigset_t` into `buf`, so it needs
      SigsetBytes of room; it then returns 0 and an empty mask. */
  method SigEmptySet(buf: seq<Byte>) returns (ret: int, mask: set<int>)
    requires SigsetBytes <= |buf|
    ensures ret == 0 && mask == {}
  {
    ret, mask := 0, {};
  }

  /** The as-written buffer cannot meet the room `sigemptyset` needs, while
      the intended one can. */
  lemma MaskBufferTooSmall()
    ensures !(SigsetBytes <= |MaskBufferAsWritten()|)
    ensures SigsetBytes <= |MaskBuffer()|
  {
  }

  /** The handle `new` returns: one signal descriptor, readable once a
      blocked signal is pending. */
  class FileHandle {
    /** Assigned once, when the handle is made, and never changed. */
    const fd: int

    /** `FileHandle()` followed by the assignment of `_fd` in `_newFd`. */
    constructor (fd: int)
      ensures this.fd == fd
    {
      this.fd := fd;
    }

    /** The descriptor to register with poll/select/epoll and with Handlers:
        the one `signalfd` returned, for the whole life of the handle. */
    function Fileno(): (r: int)
      ensures r == fd
    {
      fd
    }

    /** Asks the descriptor for exactly one message of SigMsgSize bytes and
        wraps whatever came back, without checking its length: a short read
        shows up later, as a struct error from the accessors whose slot it
        does not cover. */
    method Read(osRead: (int, nat) -> seq<Byte>) returns (s: Record.StatusRecord)
      requires forall d, n :: |osRead(d, n)| <= n
      ensures s.buf == osRead(fd, Layout.SigMsgSize)
      ensures |s.buf| <= Layout.SigMsgSize
      ensures |s.buf| < 4 ==> forall host :: s.Signo(host) == Err(StructError)
    {
      s := Record.StatusRecord(osRead(fd, Layout.SigMsgSize));
    }
  }

  /** `sigaddset(mask, sig)`, called through ctypes, so the library sees
      CInt(sig): return code 0 and that number added when it is a valid
      signal, -1 and the mask unchanged otherwise. */
  method SigAddSet(mask: set<int>, sig: int, validSignal: int -> bool) returns (ret: int, mask': set<int>)
    ensures ret == 0 <==> validSignal(CInt(sig))
    ensures mask' == if validSignal(CInt(sig)) then mask + {CInt(sig)} else mask
  {
    var c := CInt(sig);
    if validSignal(c) {
      ret, mask' := 0, mask + {c};
    } else {
      ret, mask' := -1, mask;
    }
  }

  /** `_Helper._Mask`: adds the signals one by one to an empty mask and gives
      up at the first one `sigaddset` rejects. The ghost `tried` counts the
      `sigaddset` calls made. */
  method Mask(signals: seq<int>, validSignal: int -> bool) returns (mask: Option<set<int>>, ghost tried: nat)
    ensures mask.None? <==> exists i :: 0 <= i < |signals| && !validSignal(CInt(signals[i]))
    ensures mask.Some? ==> mask.value == SignalSet(signals) && tried == |signals|
    ensures mask.None? ==> 0 < tried <= |signals| && !validSignal(CInt(signals[tried - 1]))
    ensures forall i :: 0 <= i < tried - 1 ==> validSignal(CInt(signals[i]))
  {
    var ret, added := SigEmptySet(MaskBuffer());
    assert ret == 0;
    var n := 0;
    tried := 0;
    while n < |signals|
      invariant n <= |signals| && tried == n
      invariant added == SignalSet(signals[..n])
      invariant forall i :: 0 <= i < n ==> validSignal(CInt(signals[i]))
    {
      ret, added := SigAddSet(added, signals[n], validSignal);
      assert signals[..n + 1] == signals[..n] + [signals[n]];
      n := n + 1;
      tried := n;
      if ret != 0 {
        mask := None;
        return;
      }
    }
    assert signals[..n] == signals;
    mask := Some(added);
  }

  /** `new`: no handle when some signal is invalid, and the process mask
      untouched; otherwise every listed signal except SIGKILL and SIGSTOP is
      blocked and the handle wraps the descriptor `signalfd` returned
      (`kernelFd`, which may be -1: the code does not check it). */
  method New(signals: seq<int>, validSignal: int -> bool, kernelFd: int, process: Process)
    returns (h: FileHandle?)
    requires process.Valid()
    modifies process
    ensures process.Valid()
    ensures h == null <==> exists i :: 0 <= i < |signals| && !validSignal(CInt(signals[i]))
    ensures h == null ==> process.blocked == old(process.blocked)
    ensures h != null ==> fresh(h) && h.Fileno() == kernelFd
    ensures h != null ==> process.blocked == old(process.blocked) + (SignalSet(signals) - {SIGKILL, SIGSTOP})
  {
    var mask, _ := Mask(signals, validSignal);
    if mask.None? {
      return null;
    }
    var ret := process.SigProcMask(SIG_BLOCK, mask.value);
    assert ret == 0;
    h := new FileHandle(kernelFd);
  }
}
