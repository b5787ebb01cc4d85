/** The `status` record: a read-only view over the bytes one read of a signal
    descriptor returned, with an accessor per field the caller needs. Every
    accessor decodes its fixed slot with the host's byte order and fails with a
    struct error, never with a zero-filled value, when the buffer is too short. */
module Record {

  import opened Results
  import opened Codec
  import Layout

  /** Signal number of SIGCHLD in the Linux numbering (x86 and ARM). */
  const SIGCHLD: int := 17

  datatype StatusRecord = StatusRecord(buf: seq<Byte>)
  {
    /** Signal number: unsigned 32-bit from bytes 0..3. */
    function Signo(host: ByteOrder): (r: Result<int>)
      ensures r.Ok? <==> Layout.Slot.Signo.End() <= |buf|
      ensures r.Ok? ==> r.value == Unsigned(buf[Layout.Slot.Signo.Start()..Layout.Slot.Signo.End()], host)
      ensures r.Ok? <==> 4 <= |buf|
      ensures r.Err? ==> r.error == StructError
      ensures r.Ok? ==> 0 <= r.value < Two32 && r.value == Unsigned(buf[0..4], host)
    {
      Uint32(buf, host, Layout.Slot.Signo.Index())
    }

    /** Signal code: signed 32-bit from bytes 8..11. */
    function Code(host: ByteOrder): (r: Result<int>)
      ensures r.Ok? <==> Layout.Slot.Code.End() <= |buf|
      ensures r.Ok? ==> r.value == Signed(Unsigned(buf[Layout.Slot.Code.Start()..Layout.Slot.Code.End()], host), Layout.Slot.Code.Width())
      ensures r.Ok? <==> 12 <= |buf|
      ensures r.Err? ==> r.error == StructError
      ensures r.Ok? ==> -Two31 <= r.value < Two31 && r.value == Signed(Unsigned(buf[8..12], host), 4)
    {
      Pow256Widths();
      Int32(buf, host, Layout.Slot.Code.Index())
    }

    /** Sending process id: unsigned 32-bit from bytes 12..15. */
    function Pid(host: ByteOrder): (r: Result<int>)
      ensures r.Ok? <==> Layout.Slot.Pid.End() <= |buf|
      ensures r.Ok? ==> r.value == Unsigned(buf[Layout.Slot.Pid.Start()..Layout.Slot.Pid.End()], host)
      ensures r.Ok? <==> 16 <= |buf|
      ensures r.Err? ==> r.error == StructError
      ensures r.Ok? ==> 0 <= r.value < Two32 && r.value == Unsigned(buf[12..16], host)
    {
      Uint32(buf, host, Layout.Slot.Pid.Index())
    }

    /** Sending user id: unsigned 32-bit from bytes 16..19. */
    function Uid(host: ByteOrder): (r: Result<int>)
      ensures r.Ok? <==> Layout.Slot.Uid.End() <= |buf|
      ensures r.Ok? ==> r.value == Unsigned(buf[Layout.Slot.Uid.Start()..Layout.Slot.Uid.End()], host)
      ensures r.Ok? <==> 20 <= |buf|
      ensures r.Err? ==> r.error == StructError
      ensures r.Ok? ==> 0 <= r.value < Two32 && r.value == Unsigned(buf[16..20], host)
    {
      Uint32(buf, host, Layout.Slot.Uid.Index())
    }

    /** Exit status or signal of a child: signed 32-bit from bytes 40..43. */
    function Status(host: ByteOrder): (r: Result<int>)
      ensures r.Ok? <==> Layout.Slot.Status.End() <= |buf|
      ensures r.Ok? ==> r.value == Signed(Unsigned(buf[Layout.Slot.Status.Start()..Layout.Slot.Status.End()], host), Layout.Slot.Status.Width())
      ensures r.Ok? <==> 44 <= |buf|
      ensures r.Err? ==> r.error == StructError
      ensures r.Ok? ==> -Two31 <= r.value < Two31 && r.value == Signed(Unsigned(buf[40..44], host), 4)
    {
      Pow256Widths();
      Int32(buf, host, Layout.Slot.Status.Index())
    }

    /** User CPU time consumed: unsigned 64-bit from bytes 56..63. */
    function UserTime(host: ByteOrder): (r: Result<int>)
      ensures r.Ok? <==> Layout.Slot.Utime.End() <= |buf|
      ensures r.Ok? ==> r.value == Unsigned(buf[Layout.Slot.Utime.Start()..Layout.Slot.Utime.End()], host)
      ensures r.Ok? <==> 64 <= |buf|
      ensures r.Err? ==> r.error == StructError
      ensures r.Ok? ==> 0 <= r.value < Two64 && r.value == Unsigned(buf[56..64], host)
    {
      Uint64(buf, host, Layout.Slot.Utime.Index())
    }

    /** System CPU time consumed: unsigned 64-bit from bytes 64..71. */
    function SystemTime(host: ByteOrder): (r: Result<int>)
      ensures r.Ok? <==> Layout.Slot.Stime.End() <= |buf|
      ensures r.Ok? ==> r.value == Unsigned(buf[Layout.Slot.Stime.Start()..Layout.Slot.Stime.End()], host)
      ensures r.Ok? <==> 72 <= |buf|
      ensures r.Err? ==> r.error == StructError
      ensures r.Ok? ==> 0 <= r.value < Two64 && r.value == Unsigned(buf[64..72], host)
    {
      Uint64(buf, host, Layout.Slot.Stime.Index())
    }

    /** The intended child-exit test: the signal is SIGCHLD and the code is
        `exited`. Like Python's `and`, the code is decoded only when the
        signal number matched. */
    function HasChildExited(host: ByteOrder): (r: Result<bool>)
      ensures r == Ok(true) <==> Signo(host) == Ok(SIGCHLD) && Code(host) == Ok(Layout.ChildCode.Exited.Value())
      ensures r.Err? <==> |buf| < 4 || (Signo(host) == Ok(SIGCHLD) && |buf| < 12)
    {
      match Signo(host)
      case Err(e) => Err(e)
      case Ok(signo) =>
        if signo != SIGCHLD then Ok(false)
        else match Code(host)
          case Err(e) => Err(e)
          case Ok(code) => Ok(code == Layout.ChildCode.Exited.Value())
    }

    /** `has_childExited` as the code stands: `signo()` is evaluated, then the
        undefined name `signal` raises, so no record ever gets an answer. */
    function HasChildExitedAsWritten(host: ByteOrder): (r: Result<bool>)
      ensures r.Err?
      ensures r.error == NameError <==> 4 <= |buf|
    {
      match Signo(host)
      case Err(e) => Err(e)
      case Ok(_) => Err(NameError)
    }
  }

  /** Every field of a `signalfd_siginfo` record, with the widths and
      signedness of the Linux structure, for building records to decode. */
  datatype SigInfo = SigInfo(
    signo: int, errno: int, code: int, pid: int, uid: int, fd: int,
    tid: int, band: int, overrun: int, trapno: int, status: int, intValue: int,
    ptr: int, utime: int, stime: int, addr: int)
  {
    predicate Valid() {
      && 0 <= signo < Two32 && -Two31 <= errno < Two31 && -Two31 <= code < Two31
      && 0 <= pid < Two32 && 0 <= uid < Two32 && -Two31 <= fd < Two31
      && 0 <= tid < Two32 && 0 <= band < Two32 && 0 <= overrun < Two32
      && 0 <= trapno < Two32 && -Two31 <= status < Two31 && -Two31 <= intValue < Two31
      && 0 <= ptr < Two64 && 0 <= utime < Two64 && 0 <= stime < Two64 && 0 <= addr < Two64
    }
  }

  /** The twelve 4-byte slots of a record, in layout order. */
  function Words(info: SigInfo, host: ByteOrder): (ws: seq<seq<Byte>>)
    requires info.Valid()
    ensures |ws| == Layout.Num32 && forall i :: 0 <= i < |ws| ==> |ws[i]| == 4
  {
    [ PackUint32(info.signo, host), PackInt32(info.errno, host), PackInt32(info.code, host),
      PackUint32(info.pid, host), PackUint32(info.uid, host), PackInt32(info.fd, host),
      PackUint32(info.tid, host), PackUint32(info.band, host), PackUint32(info.overrun, host),
      PackUint32(info.trapno, host), PackInt32(info.status, host), PackInt32(info.intValue, host) ]
  }

  /** The four 8-byte fields of a record, in layout order. */
  function Wides(info: SigInfo, host: ByteOrder): (ws: seq<seq<Byte>>)
    requires info.Valid()
    ensures |ws| == Layout.Num64 && forall i :: 0 <= i < |ws| ==> |ws[i]| == 8
  {
    [ PackUint64(info.ptr, host), PackUint64(info.utime, host),
      PackUint64(info.stime, host), PackUint64(info.addr, host) ]
  }

  function Flatten(ws: seq<seq<Byte>>): seq<Byte> {
    if ws == [] then [] else ws[0] + Flatten(ws[1..])
  }

  /** Entry k of a list of equal-width pieces sits at bytes [w*k, w*k + w) of their concatenation. */
  lemma {:induction false} FlattenAt(ws: seq<seq<Byte>>, w: nat, k: nat)
    requires forall i :: 0 <= i < |ws| ==> |ws[i]| == w
    requires k < |ws|
    ensures |Flatten(ws)| == w * |ws|
    ensures w * k + w <= |Flatten(ws)| && Flatten(ws)[w * k .. w * k + w] == ws[k]
  {
    if k == 0 {
      if |ws| > 1 {
        FlattenAt(ws[1..], w, 0);
      } else {
        assert ws[1..] == [];
      }
    } else {
      FlattenAt(ws[1..], w, k - 1);
      assert w * k == w + w * (k - 1);
      assert w * |ws| == w + w * (|ws| - 1);
    }
  }

  /** The 128-byte message the kernel writes for info: the twelve words, the
      four wide fields, then zero padding up to the message size. */
  function Encode(info: SigInfo, host: ByteOrder): (buf: seq<Byte>)
    requires info.Valid()
    ensures |buf| == Layout.SigMsgSize
  {
    FlattenAt(Words(info, host), 4, 0);
    FlattenAt(Wides(info, host), 8, 0);
    Flatten(Words(info, host)) + Flatten(Wides(info, host)) + seq(48, _ => 0)
  }

  lemma EncodeWord(info: SigInfo, host: ByteOrder, i: nat)
    requires info.Valid() && i < Layout.Num32
    ensures Slice(Encode(info, host), i, 4) == Ok(Words(info, host)[i])
  {
    var words, wides := Flatten(Words(info, host)), Flatten(Wides(info, host));
    FlattenAt(Words(info, host), 4, i);
    var buf := Encode(info, host);
    assert buf == words + (wides + seq(48, _ => 0));
    assert buf[4 * i .. 4 * i + 4] == words[4 * i .. 4 * i + 4];
  }

  lemma EncodeWide(info: SigInfo, host: ByteOrder, k: nat)
    requires info.Valid() && k < Layout.Num64
    ensures Slice(Encode(info, host), Layout.Wide(k), 8) == Ok(Wides(info, host)[k])
  {
    var words, wides := Flatten(Words(info, host)), Flatten(Wides(info, host));
    FlattenAt(Words(info, host), 4, 0);
    FlattenAt(Wides(info, host), 8, k);
    var buf := Encode(info, host);
    assert buf == words + wides + seq(48, _ => 0);
    assert buf[48 + 8 * k .. 48 + 8 * k + 8] == wides[8 * k .. 8 * k + 8];
  }

  lemma EncodedUint32(info: SigInfo, host: ByteOrder, i: nat, v: int)
    requires info.Valid() && i < Layout.Num32 && 0 <= v < Two32
    requires Words(info, host)[i] == PackUint32(v, host)
    ensures Uint32(Encode(info, host), host, i) == Ok(v)
  {
    Pow256Widths();
    EncodeWord(info, host, i);
    UnsignedRoundTrip(v, 4, host);
  }

  lemma EncodedInt32(info: SigInfo, host: ByteOrder, i: nat, v: int)
    requires info.Valid() && i < Layout.Num32 && -Two31 <= v < Two31
    requires Words(info, host)[i] == PackInt32(v, host)
    ensures Int32(Encode(info, host), host, i) == Ok(v)
  {
    Pow256Widths();
    EncodeWord(info, host, i);
    UnsignedRoundTrip(Pattern(v, 4), 4, host);
  }

  lemma EncodedUint64(info: SigInfo, host: ByteOrder, k: nat, v: int)
    requires info.Valid() && k < Layout.Num64 && 0 <= v < Two64
    requires Wides(info, host)[k] == PackUint64(v, host)
    ensures Uint64(Encode(info, host), host, Layout.Wide(k)) == Ok(v)
  {
    Pow256Widths();
    EncodeWide(info, host, k);
    UnsignedRoundTrip(v, 8, host);
  }

  /** The 32-bit accessors on an encoded record give back their fields. */
  lemma DecodeEncodeWords(info: SigInfo, host: ByteOrder)
    requires info.Valid()
    ensures var rec := StatusRecord(Encode(info, host));
      && rec.Signo(host) == Ok(info.signo)
      && rec.Code(host) == Ok(info.code)
      && rec.Pid(host) == Ok(info.pid)
      && rec.Uid(host) == Ok(info.uid)
      && rec.Status(host) == Ok(info.status)
  {
    var rec := StatusRecord(Encode(info, host));
    assert rec.Signo(host) == Ok(info.signo) by { EncodedUint32(info, host, 0, info.signo); }
    assert rec.Code(host) == Ok(info.code) by { EncodedInt32(info, host, 2, info.code); }
    assert rec.Pid(host) == Ok(info.pid) by { EncodedUint32(info, host, 3, info.pid); }
    assert rec.Uid(host) == Ok(info.uid) by { EncodedUint32(info, host, 4, info.uid); }
    assert rec.Status(host) == Ok(info.status) by { EncodedInt32(info, host, 10, info.status); }
  }

  /** The 64-bit accessors on an encoded record give back their fields. */
  lemma DecodeEncodeTimes(info: SigInfo, host: ByteOrder)
    requires info.Valid()
    ensures var rec := StatusRecord(Encode(info, host));
      && rec.UserTime(host) == Ok(info.utime)
      && rec.SystemTime(host) == Ok(info.stime)
  {
    var rec := StatusRecord(Encode(info, host));
    assert rec.UserTime(host) == Ok(info.utime) by { EncodedUint64(info, host, 1, info.utime); }
    assert rec.SystemTime(host) == Ok(info.stime) by { EncodedUint64(info, host, 2, info.stime); }
  }

  /** Decoding an encoded record gives back every field the accessors expose. */
  lemma DecodeEncode(info: SigInfo, host: ByteOrder)
    requires info.Valid()
    ensures var rec := StatusRecord(Encode(info, host));
      && rec.Signo(host) == Ok(info.signo)
      && rec.Code(host) == Ok(info.code)
      && rec.Pid(host) == Ok(info.pid)
      && rec.Uid(host) == Ok(info.uid)
      && rec.Status(host) == Ok(info.status)
      && rec.UserTime(host) == Ok(info.utime)
      && rec.SystemTime(host) == Ok(info.stime)
  {
    DecodeEncodeWords(info, host);
    DecodeEncodeTimes(info, host);
  }

  /** A child that exited with status 7: the record SIGCHLD delivers for it. */
  function ChildExit(pid: int, utime: int): (info: SigInfo)
    requires 0 <= pid < Two32 && 0 <= utime < Two64
    ensures info.Valid()
  {
    SigInfo(SIGCHLD, 0, Layout.ChildCode.Exited.Value(), pid, 0, 0, 0, 0, 0, 0, 7, 0, 0, utime, 0, 0)
  }

  /** On that record the intended test answers true, while the code as written
      raises NameError instead of answering. */
  lemma ChildExitDetected(host: ByteOrder)
    ensures var rec := StatusRecord(Encode(ChildExit(4242, 999999), host));
      && rec.Signo(host) == Ok(17) && rec.Code(host) == Ok(1) && rec.Status(host) == Ok(7)
      && rec.Pid(host) == Ok(4242) && rec.UserTime(host) == Ok(999999)
      && rec.HasChildExited(host) == Ok(true)
      && rec.HasChildExitedAsWritten(host) == Err(NameError)
  {
    DecodeEncode(ChildExit(4242, 999999), host);
  }
}
