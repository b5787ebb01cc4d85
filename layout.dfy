/** The fixed layout of the Linux `signalfd_siginfo` record, as the decoder
    indexes it: twelve 4-byte slots followed by four 8-byte fields whose slot
    indices start at 12 and step by 2, inside a 128-byte message. */
module Layout {

  import Results

  /** Number of 4-byte slots and of 8-byte fields. */
  const Num32: nat := 12
  const Num64: nat := 4

  /** Bytes asked of the descriptor per read, and the size of a mask buffer. */
  const SigMsgSize: nat := 128
  const SigMaskBufSize: nat := 128

  /** Every slot the decoder names, in layout order. */
  datatype Slot =
    | Signo | Errno | Code | Pid | Uid | Fd | Tid | Band | Overrun | Trapno | Status | Int
    | Ptr | Utime | Stime | Addr
  {
    /** True for the first twelve slots, which hold 32-bit values. */
    predicate IsWord() {
      !(Ptr? || Utime? || Stime? || Addr?)
    }

    /** The slot index: the first byte of the field is at 4 * Index(). */
    function Index(): (i: nat)
      ensures IsWord() ==> i < Num32
      ensures !IsWord() ==> Num32 <= i < Num32 + 2 * Num64 && (i - Num32) % 2 == 0
    {
      match this
      case Signo => 0
      case Errno => 1
      case Code => 2
      case Pid => 3
      case Uid => 4
      case Fd => 5
      case Tid => 6
      case Band => 7
      case Overrun => 8
      case Trapno => 9
      case Status => 10
      case Int => 11
      case Ptr => Wide(0)
      case Utime => Wide(1)
      case Stime => Wide(2)
      case Addr => Wide(3)
    }

    /** Width in bytes of the value stored at the slot. */
    function Width(): (w: nat)
      ensures IsWord() <==> w == 4
      ensures !IsWord() <==> w == 8
    {
      if IsWord() then 4 else 8
    }

    /** The half-open byte range the slot occupies. */
    function Start(): nat {
      4 * Index()
    }

    function End(): nat {
      Start() + Width()
    }
  }

  /** Slot index of the k-th 8-byte field, as `range(12, 20, 2)` lists them. */
  function Wide(k: nat): nat
    requires k < Num64
  {
    2 * k + Num32
  }

  /** No two slots share a byte, and every slot ends inside the message. */
  lemma LayoutDisjoint(a: Slot, b: Slot)
    ensures a.End() <= SigMsgSize
    ensures a != b ==> a.End() <= b.Start() || b.End() <= a.Start()
    ensures a.IsWord() ==> a.End() <= 4 * Num32
    ensures !a.IsWord() ==> 4 * Num32 <= a.Start()
  {
  }

  /** The sub-classification codes a SIGCHLD record carries in its `code` slot. */
  datatype ChildCode = Exited | Killed | Dumped | Traped | Stopped | Continued
  {
    /** The numeric code: `exited` is 1 and the codes are consecutive up to 6. */
    function Value(): (n: int)
      ensures 1 <= n <= NumCodes
    {
      match this
      case Exited => 1
      case Killed => 2
      case Dumped => 3
      case Traped => 4
      case Stopped => 5
      case Continued => 6
    }
  }

  const NumCodes: nat := 6

  /** The code each numeric value names, the inverse of ChildCode.Value. */
  function ChildCodeOf(n: int): (c: Results.Option<ChildCode>)
    ensures c.Some? <==> 1 <= n <= NumCodes
    ensures c.Some? ==> c.value.Value() == n
  {
    if n == 1 then Results.Some(Exited)
    else if n == 2 then Results.Some(Killed)
    else if n == 3 then Results.Some(Dumped)
    else if n == 4 then Results.Some(Traped)
    else if n == 5 then Results.Some(Stopped)
    else if n == 6 then Results.Some(Continued)
    else Results.None
  }

  /** Distinct codes have distinct values, so ChildCodeOf recovers every code. */
  lemma ChildCodesDistinct(c: ChildCode, d: ChildCode)
    ensures c.Value() == d.Value() ==> c == d
    ensures ChildCodeOf(c.Value()) == Results.Some(c)
  {
  }
}
