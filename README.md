# sigStream in Dafny

A model of `sigStream.py`, a small Python module that turns POSIX signals
into a readable descriptor (Linux `signalfd`). It has three parts:

- **The `status` record.** Each read of the signal descriptor returns bytes
  laid out as the `signalfd_siginfo` structure of the Linux signalfd(2) manual
  page. There are twelve 4-byte slots (`signo` … `int`), then four 8-byte fields
  (`ptr`, `utime`, `stime`, `addr`) at slot indices 12, 14, 16 and 18, all inside
  a 128-byte message. The accessors use `struct.unpack` with the `=` prefix,
  which means standard sizes and the host's byte order. They fail with a struct
  error when the buffer does not hold all bytes of the slot.
- **The factory.** `_Helper._Mask` adds signals one by one to an empty mask and
  returns `None` at the first one `sigaddset` rejects. `new` passes that `None`
  on. Otherwise it blocks the mask for the process and wraps the `signalfd`
  descriptor in a `FileHandle`. `FileHandle.read` asks for 128 bytes and wraps
  whatever it gets in a `status`.
- **`Handlers`.** This is a table from descriptor number to (resource, handler).
  `register` overwrites. `handle` calls the stored handler with the stored
  resource and the caller's flags, and raises `KeyError` for an unknown
  descriptor.

Files: `results.dfy` (errors, `Result`, `Option`), `layout.dfy` (slot indices,
child codes, message size), `codec.dfy` (fixed-width integers in a byte
buffer, in either byte order, with their encoders), `record.dfy` (the `status`
accessors, and a whole-record encoder for round trips), `signals.dfy` (mask,
blocking, `new`, `FileHandle`), `dispatch.dfy` (`Handlers`).

How the outside world is represented:
- The host byte order is a parameter, `host: ByteOrder`.
- Whether `sigaddset` accepts a signal number is a caller-supplied predicate, `validSignal`.
- The descriptor `signalfd` returns is a parameter, `kernelFd`.
- The bytes `os.read` returns for a descriptor and a byte count are a function parameter, `osRead`.
- The process's blocked-signal set is the field of a `Process` object.

The accessors are functions of an immutable value. So they cannot change the
buffer, and calling one twice on the same record gives the same value.

## Model

| member | source | states |
|---|---|---|
| `Layout.Slot.Index` | sigStream.py:16-40 | the twelve 4-byte slots have indices below 12; the four 8-byte fields have even offsets from 12 and stay below 20 |
| `Layout.Slot.Width` | sigStream.py:53-63 | the twelve 32-bit slots are 4 bytes wide and the four 64-bit fields 8 bytes, the widths of the `=l`/`=L` and `=q`/`=Q` formats |
| `Layout.LayoutDisjoint` | sigStream.py:16-40 | no two slots share a byte; every slot ends within the 128-byte message; 4-byte slots lie in bytes 0..47 and 8-byte fields from byte 48 on |
| `Layout.ChildCode.Value` | sigStream.py:43-51 | child codes are numbered from `exited` = 1 up to `continued` = 6 |
| `Layout.ChildCodeOf` | sigStream.py:43-51 | exactly the numbers 1..6 name a child code, and each names the code whose value it is |
| `Layout.ChildCodesDistinct` | sigStream.py:43-51 | distinct child codes have distinct values |
| `Codec.Slice` | sigStream.py:53-63 | a w-byte read at slot i takes bytes [4i, 4i+w); it is a struct error exactly when the buffer is shorter than 4i+w, so missing bytes are never read as zero |
| `Codec.Uint32` | sigStream.py:56-57 | `_uint32` succeeds exactly when slot i is complete, and its result lies in [0, 2^32) |
| `Codec.Int32` | sigStream.py:53-54 | `_int32` succeeds exactly when slot i is complete, and its result lies in [-2^31, 2^31) |
| `Codec.Uint64` | sigStream.py:62-63 | `_uint64` succeeds exactly when bytes [4i, 4i+8) are present, and its result lies in [0, 2^64) |
| `Codec.Int64` | sigStream.py:59-60 | `_int64` succeeds exactly when bytes [4i, 4i+8) are present, and its result lies in [-2^63, 2^63) |
| `Codec.LittleValue` | sigStream.py:53-63 | n bytes hold an unsigned value below 256^n |
| `Codec.Signed` | sigStream.py:53-54 | the two's-complement reading of an n-byte pattern lies in [-2^(8n-1), 2^(8n-1)), equals the pattern when non-negative and the pattern minus 256^n otherwise |
| `Codec.Pattern` | sigStream.py:53-54 | every signed value in range has an n-byte pattern whose signed reading is that value |
| `Codec.LittleValueOfBytes` | sigStream.py:53-63 | least-significant-first decoding inverts encoding |
| `Codec.LittleBytesOfValue` | sigStream.py:53-63 | least-significant-first encoding inverts decoding, for every byte string |
| `Codec.UnsignedRoundTrip` | sigStream.py:53-63 | in either byte order, decoding the encoding of a value gives the value back |
| `Codec.UnsignedBytesRoundTrip` | sigStream.py:53-63 | in either byte order, encoding the decoded value of a byte string gives the bytes back |
| `Codec.SliceStore` | sigStream.py:53-63 | after bytes are stored at slot i, reading slot i gives exactly those bytes |
| `Codec.SliceStoreElsewhere` | sigStream.py:53-63 | storing into one slot leaves every disjoint slot's bytes as they were |
| `Codec.Uint32RoundTrip` | sigStream.py:56-57 | a 32-bit unsigned value packed into slot i decodes back to itself through `_uint32` |
| `Codec.Int32RoundTrip` | sigStream.py:53-54 | a 32-bit signed value packed into slot i decodes back to itself through `_int32` |
| `Codec.Uint64RoundTrip` | sigStream.py:62-63 | a 64-bit unsigned value packed at slot i decodes back to itself through `_uint64` |
| `Codec.Int64RoundTrip` | sigStream.py:59-60 | a 64-bit signed value packed at slot i decodes back to itself through `_int64` |
| `Record.StatusRecord.Signo` | sigStream.py:65-66 | `signo()` is the unsigned value of bytes 0..3, exactly the byte range `[Start(), End())` of its layout slot; it fails exactly when fewer than 4 bytes were read |
| `Record.StatusRecord.Code` | sigStream.py:68-69 | `code()` is the signed value of bytes 8..11, exactly the byte range `[Start(), End())` of its layout slot; it fails exactly when fewer than 12 bytes were read |
| `Record.StatusRecord.Pid` | sigStream.py:88-89 | `pid()` is the unsigned value of bytes 12..15, exactly the byte range `[Start(), End())` of its layout slot; it fails exactly when fewer than 16 bytes were read |
| `Record.StatusRecord.Uid` | sigStream.py:85-86 | `uid()` is the unsigned value of bytes 16..19, exactly the byte range `[Start(), End())` of its layout slot; it fails exactly when fewer than 20 bytes were read |
| `Record.StatusRecord.Status` | sigStream.py:77-78 | `status()` is the signed value of bytes 40..43, exactly the byte range `[Start(), End())` of its layout slot; it fails exactly when fewer than 44 bytes were read |
| `Record.StatusRecord.UserTime` | sigStream.py:71-72 | `userTime()` is the unsigned 64-bit value of bytes 56..63, exactly the byte range `[Start(), End())` of its layout slot; it fails exactly when fewer than 64 bytes were read |
| `Record.StatusRecord.SystemTime` | sigStream.py:74-75 | `systemTime()` is the unsigned 64-bit value of bytes 64..71, exactly the byte range `[Start(), End())` of its layout slot; it fails exactly when fewer than 72 bytes were read |
| `Record.StatusRecord.HasChildExited` | sigStream.py:80-83 | the intended child-exit test is true exactly when `signo()` is SIGCHLD and `code()` is `exited`; it fails only when a slot it must read is missing |
| `Record.StatusRecord.HasChildExitedAsWritten` | sigStream.py:80-83 | the code as written never answers: it raises NameError whenever `signo()` succeeds |
| `Record.Encode` | sigStream.py:16-40 | a record built from all sixteen fields is exactly 128 bytes long |
| `Record.FlattenAt` | sigStream.py:20-40 | in a run of equal-width fields, field k occupies bytes [w·k, w·k+w) |
| `Record.DecodeEncodeWords` | sigStream.py:65-89 | on a record built from given field values, the 32-bit accessors `signo`, `code`, `pid`, `uid` and `status` return exactly those values |
| `Record.DecodeEncodeTimes` | sigStream.py:71-75 | on a record built from given field values, `userTime` and `systemTime` return exactly those values |
| `Record.DecodeEncode` | sigStream.py:65-89 | on a record built from given field values, `signo`, `code`, `pid`, `uid`, `status`, `userTime` and `systemTime` return exactly those values, in either byte order |
| `Record.ChildExitDetected` | sigStream.py:80-83 | on a SIGCHLD record with code `exited`, status 7, pid 4242 and user time 999999, every accessor returns those values and the intended test answers true, while the code as written raises NameError |
| `Signals.Process.constructor` | sigStream.py:140-145 | a process's blocked set never holds SIGKILL or SIGSTOP |
| `Signals.Process.SigProcMask` | sigStream.py:140-145 | `sigprocmask(SIG_BLOCK, …)` returns 0, so the `assert(ret==0)` in `_block` holds; the mask joins the blocked set, except SIGKILL and SIGSTOP, which stay unblocked |
| `Signals.FileHandle.constructor` | sigStream.py:147-156 | the handle holds the descriptor `signalfd` returned, unchanged |
| `Signals.FileHandle.Fileno` | sigStream.py:101-105 | `fileno()` returns the descriptor `_newFd` stored in the handle; the field is constant, so it is the same descriptor for the whole life of the handle |
| `Signals.FileHandle.Read` | sigStream.py:107-114 | `read` asks its own descriptor for exactly 128 bytes and wraps what came back without checking its length; the record therefore holds at most one 128-byte message, and a read of fewer than 4 bytes makes even `signo()` a struct error |
| `Signals.CreateStringBuffer` | sigStream.py:129 | `create_string_buffer` with an integer first argument allocates that many zero bytes, whatever size is passed second |
| `Signals.MaskBufferAsWritten` | sigStream.py:129 | the buffer `_Mask` allocates as written holds fewer bytes than a `sigset_t` |
| `Signals.MaskBuffer` | sigStream.py:118 | the intended buffer holds the 128 bytes of a `sigset_t` |
| `Signals.SigEmptySet` | sigStream.py:130-131 | given room for a `sigset_t`, `sigemptyset` returns 0 and an empty mask, so the `assert(ret==0)` holds |
| `Signals.MaskBufferTooSmall` | sigStream.py:129-130 | the as-written buffer cannot meet what `sigemptyset` needs, and the intended one can |
| `Signals.CInt` | sigStream.py:134 | an int passed to `sigaddset` without declared argument types arrives as a 32-bit C `int`: in [-2^31, 2^31), congruent to the original modulo 2^32, and unchanged when it already fits |
| `Signals.CIntWraps` | sigStream.py:134 | 2^32 + 17 reaches `sigaddset` as 17 (SIGCHLD), and 2^32 - 1 as -1 |
| `Signals.SignalSetInRange` | sigStream.py:133-138 | when every listed number fits a C `int`, the mask holds exactly the listed numbers |
| `Signals.SigAddSet` | sigStream.py:133-136 | the library receives the signal number cut to a 32-bit C `int`; it adds that number and returns 0 exactly when it is a valid signal, and otherwise returns nonzero and leaves the mask alone |
| `Signals.Mask` | sigStream.py:124-138 | `_Mask` returns no mask exactly when some listed signal, as a C `int`, is invalid, and then stops right after the first invalid one (the ghost count of `sigaddset` calls shows where); otherwise the mask holds exactly the listed signals as C `int`s |
| `Signals.New` | sigStream.py:158-172 | `new` returns no handle exactly when some signal, as a C `int`, is invalid, and then leaves the blocked set alone; otherwise it blocks every listed signal (as a C `int`) except SIGKILL and SIGSTOP and returns a fresh handle whose `fileno()` is the descriptor `signalfd` produced |
| `Dispatch.Handlers.constructor` | sigStream.py:180 | the shared table starts empty |
| `Dispatch.Handlers.Register` | sigStream.py:182-190 | afterwards the resource's descriptor maps to (resource, handler), replacing any earlier entry; every other entry is unchanged; every entry stays filed under its own resource's descriptor |
| `Dispatch.Handlers.Handle` | sigStream.py:192-199 | on a registered descriptor, calls exactly the stored handler with the stored resource and the caller's flags, which are passed through unchanged; on an unregistered descriptor, fails with KeyError; it never changes the table |
| `Dispatch.LastRegistrationWins` | sigStream.py:182-199 | two registrations under one descriptor followed by `handle` call only the second handler, with the second resource |
| `Dispatch.UnregisteredIsKeyError` | sigStream.py:192-199 | `handle` on a table with no registrations is a KeyError |

## Left out

- The C library calls `sigemptyset`, `sigaddset`, `sigprocmask` and `signalfd` are foreign calls. They are represented by small stand-ins (`SigEmptySet`, `SigAddSet`, `Process.SigProcMask`), the `validSignal` predicate and the `kernelFd` parameter.
- Signals.Process.SigProcMask: only the `SIG_BLOCK` form of `sigprocmask` is modelled, because it is the only one the module calls; `SIG_UNBLOCK`, `SIG_SETMASK` and the error for an invalid `how` are not.
- Signals.SigAddSet: a signal number outside [-2^63, 2^64) makes ctypes raise an argument error before `sigaddset` is called; the model cuts it to 32 bits like any other number.
- The mask buffer is modelled only by its length; the signal set written into it is modelled as a set of signal numbers. The model's `_Mask` uses the intended 128-byte buffer (see Findings).
- `os.read` is I/O. It is the `osRead` parameter, and any error it raises is not modelled.
- Signals.New: it does not check the descriptor `signalfd` returned, and neither does the code, so a handle may wrap -1.
- SIGCHLD, SIGKILL and SIGSTOP are fixed at 17, 9 and 19, their numbers on Linux for x86 and ARM. Other architectures number them differently.
- `Handlers` instances share one class-level dict. The model has a single `Handlers` object that every caller uses. It does not model separately constructed Python objects that alias one table.
- Dispatch.Handlers.Handle: it returns the call it makes (handler, resource, flags) instead of running the handler. What a handler does, including an exception it raises or a re-registration, is not modelled.
- Resources are anything with a `fileno()`. Each is modelled by an identity and the descriptor it reported when it was registered.
- The code has no close operation and no closed state, so no use-after-close error is modelled.
- `read` does not reject a short read. It fails later, at each accessor whose slot the buffer does not cover.
- The slots that have no accessor (`errno`, `fd`, `tid`, `band`, `overren`, `trapno`, `int`, `ptr`, `addr`) appear only in the layout and in the record encoder.
- The `__main__` demo (poll loop, interval timer, `os.kill`, printing) is a driver, not part of the library.

## Findings

| source | as written | input that shows it | evidently intended | confidence | as-written member | corrected member |
|---|---|---|---|---|---|---|
| sigStream.py:80-83 | `has_childExited` reads `signal.SIGCHLD` although `signal` is not bound in the module's globals (it is imported only by the `__main__` demo), so it raises NameError once `signo()` succeeds. It also names a class `_ChildCode` that does not exist, and compares the method `self.code` without calling it, so it could never be true | the 128-byte SIGCHLD record with code 1 and status 7 (`Record.ChildExitDetected`) | true exactly when `signo()` is SIGCHLD and `code()` is `exited` (1) | not executed | `Record.StatusRecord.HasChildExitedAsWritten` | `Record.StatusRecord.HasChildExited` |
| sigStream.py:129 | `create_string_buffer(0, self._sigMaskBufSize)`: with an integer first argument ctypes takes it as the length and ignores the second, so the buffer has 0 bytes, and `sigemptyset`/`sigaddset` then write a 128-byte `sigset_t` past its end | any call of `_Mask`, e.g. `new([SIGCHLD])` (`Signals.MaskBufferTooSmall`) | `create_string_buffer(128)`: a 128-byte buffer | not executed | `Signals.MaskBufferAsWritten` | `Signals.MaskBuffer` |
