/** The pause frame as bytes, and what a frame that was sent as bytes does at the peer. */
module PfcHeaders {
  import opened Frames
  import opened EventQueue
  import opened PfcDevice
  import opened DeviceGate

  type Byte = b: nat | b < 0x100

  const PFC_OPCODE: Word := 0x0101
  const SIZE := 20

  /** Opcode, class mask, reserved octet, and one quanta for each class. */
  datatype Header = Header(opcode: Word, classEnable: Byte, reserved: Byte, quanta: Quanta)

  // ---------- Bytes ----------

  /** Network byte order: the high octet first. */
  function Hton(w: Word): seq<Byte> {
    [w / 0x100, w % 0x100]
  }

  function Ntoh(high: Byte, low: Byte): Word {
    high * 0x100 + low
  }

  /** The first `k` quanta, two octets each. */
  function EncodeQuanta(q: Quanta, k: nat): (b: seq<Byte>)
    requires k <= 8
    ensures |b| == 2 * k
  {
    if k == 0 then [] else EncodeQuanta(q, k - 1) + Hton(q[k - 1])
  }

  function Encode(h: Header): (b: seq<Byte>)
    ensures |b| == SIZE
  {
    Hton(h.opcode) + [h.classEnable] + [h.reserved] + EncodeQuanta(h.quanta, 8)
  }

  function DecodeQuanta(b: seq<Byte>, k: nat): (q: seq<nat>)
    requires |b| == SIZE && k <= 8
    ensures |q| == k && forall i :: 0 <= i < k ==> q[i] == Ntoh(b[4 + 2 * i], b[5 + 2 * i])
  {
    if k == 0 then [] else DecodeQuanta(b, k - 1) + [Ntoh(b[2 + 2 * k], b[3 + 2 * k])]
  }

  function Decode(b: seq<Byte>): Header
    requires |b| == SIZE
  {
    Header(Ntoh(b[0], b[1]), b[2], b[3], DecodeQuanta(b, 8))
  }

  lemma {:induction false} EncodedAt(q: Quanta, k: nat, i: nat)
    requires i < k <= 8
    ensures EncodeQuanta(q, k)[2 * i] == q[i] / 0x100 && EncodeQuanta(q, k)[2 * i + 1] == q[i] % 0x100
  {
    if i < k - 1 {
      EncodedAt(q, k - 1, i);
    }
  }

  /** What was serialized is read back. */
  lemma DecodeEncode(h: Header)
    ensures Decode(Encode(h)) == h
  {
    var b := Encode(h);
    forall i: nat | i < 8
      ensures Decode(b).quanta[i] == h.quanta[i]
    {
      EncodedAt(h.quanta, 8, i);
      assert b[4 + 2 * i] == EncodeQuanta(h.quanta, 8)[2 * i];
      assert b[5 + 2 * i] == EncodeQuanta(h.quanta, 8)[2 * i + 1];
    }
    assert Decode(b).quanta == h.quanta;
  }

  /** The layout on the wire: every word stands with its high octet first, the opcode, the mask, the reserved octet, then the quanta. */
  lemma Layout(h: Header, p: Prio)
    ensures var b := Encode(h);
      && b[0] as int * 256 + b[1] as int == h.opcode && b[2] == h.classEnable && b[3] == h.reserved
      && b[4 + 2 * p] as int * 256 + b[5 + 2 * p] as int == h.quanta[p]
  {
    EncodedAt(h.quanta, 8, p);
    var b := Encode(h);
    assert b[4 + 2 * p] == EncodeQuanta(h.quanta, 8)[2 * p] && b[5 + 2 * p] == EncodeQuanta(h.quanta, 8)[2 * p + 1];
  }

  lemma QuantaDecoded(b: seq<Byte>, i: nat)
    requires |b| == SIZE && i < 8
    ensures Encode(Decode(b))[4 + 2 * i] == b[4 + 2 * i] && Encode(Decode(b))[5 + 2 * i] == b[5 + 2 * i]
  {
    var q := Decode(b).quanta;
    EncodedAt(q, 8, i);
    assert Encode(Decode(b))[4 + 2 * i] == EncodeQuanta(q, 8)[2 * i];
    assert Encode(Decode(b))[5 + 2 * i] == EncodeQuanta(q, 8)[2 * i + 1];
  }

  lemma HtonNtoh(high: Byte, low: Byte)
    ensures Hton(Ntoh(high, low)) == [high, low]
  {
  }

  lemma HeadDecoded(b: seq<Byte>)
    requires |b| == SIZE
    ensures var e := Encode(Decode(b)); e[0] == b[0] && e[1] == b[1] && e[2] == b[2] && e[3] == b[3]
  {
    HtonNtoh(b[0], b[1]);
  }

  /** And every buffer of the right size is the serialization of what is read from it. */
  lemma EncodeDecode(b: seq<Byte>)
    requires |b| == SIZE
    ensures Encode(Decode(b)) == b
  {
    forall j: nat | j < SIZE
      ensures Encode(Decode(b))[j] == b[j]
    {
      if j < 4 {
        HeadDecoded(b);
      } else {
        QuantaDecoded(b, (j - 4) / 2);
        assert j == 4 + 2 * ((j - 4) / 2) || j == 5 + 2 * ((j - 4) / 2);
      }
    }
  }

  // ---------- The mask ----------

  /** The mask `1 << p`. */
  function Power(p: nat): (m: nat)
    ensures m > 0
  {
    if p == 0 then 1 else 2 * Power(p - 1)
  }

  /** Bit `p` of the class mask. */
  predicate Bit(mask: nat, p: nat)
    decreases p
  {
    if p == 0 then mask % 2 == 1 else Bit(mask / 2, p - 1)
  }

  function EnabledBy(mask: Byte): set<Prio> {
    set p: Prio | p < 8 && Bit(mask, p)
  }

  lemma {:induction false} NoBits(mask: nat, n: nat)
    requires mask < Power(n) && forall p: nat :: p < n ==> !Bit(mask, p)
    ensures mask == 0
  {
    if n > 0 {
      forall p: nat | p < n - 1
        ensures !Bit(mask / 2, p)
      {
        assert !Bit(mask, p + 1);
      }
      assert !Bit(mask, 0);
      NoBits(mask / 2, n - 1);
    }
  }

  lemma {:induction false} ZeroBits(p: nat)
    ensures !Bit(0, p)
  {
    if p > 0 {
      ZeroBits(p - 1);
    }
  }

  /** A mask selects no class exactly when it is zero. */
  lemma EmptyMask(mask: Byte)
    ensures EnabledBy(mask) == {} <==> mask == 0
  {
    PowerOfEight();
    if EnabledBy(mask) == {} {
      forall p: nat | p < 8
        ensures !Bit(mask, p)
      {
        assert p !in EnabledBy(mask);
      }
      NoBits(mask, 8);
    }
    if mask == 0 {
      forall p: Prio
        ensures p !in EnabledBy(mask)
      {
        ZeroBits(p);
      }
    }
  }

  lemma PowerOfEight()
    ensures Power(8) == 0x100
  {
    assert Power(4) == 16;
    assert Power(6) == 64;
  }

  lemma {:induction false} PowerBit(p: nat, r: nat)
    ensures Bit(Power(p), r) <==> r == p
  {
    if p == 0 && r > 0 {
      ZeroBits(r - 1);
    } else if p > 0 && r > 0 {
      PowerBit(p - 1, r - 1);
    }
  }

  /** The bits count from the lowest: class 0 is worth 1 and class 7 is worth 128. */
  lemma BitWorth(mask: Byte, p: Prio)
    ensures var worth := [1, 2, 4, 8, 16, 32, 64, 128];
      Power(p) == worth[p] && (Bit(mask, p) <==> mask / worth[p] % 2 == 1)
  {
    Halves(mask, p);
  }

  lemma {:induction false} Halves(mask: nat, p: nat)
    requires p < 8
    ensures Power(p) == [1, 2, 4, 8, 16, 32, 64, 128][p] && (Bit(mask, p) <==> mask / Power(p) % 2 == 1)
  {
    if p > 0 {
      Halves(mask / 2, p - 1);
      DivideTwice(mask, Power(p - 1));
    }
  }

  lemma DivideTwice(m: nat, k: nat)
    requires k in [1, 2, 4, 8, 16, 32, 64]
    ensures m / 2 / k == m / (2 * k)
  {
    assert m / 2 / 2 == m / 4 && m / 2 / 4 == m / 8 && m / 2 / 8 == m / 16;
    assert m / 2 / 16 == m / 32 && m / 2 / 32 == m / 64 && m / 2 / 64 == m / 128;
  }

  lemma {:induction false} PowerRises(p: nat, r: nat)
    requires p <= r
    ensures Power(p) <= Power(r)
  {
    if p < r {
      PowerRises(p, r - 1);
    }
  }

  /** The mask of one class enables that class alone. */
  lemma OneBit(p: Prio)
    ensures Power(p) < 0x100 && EnabledBy(Power(p)) == {p}
  {
    PowerOfEight();
    PowerRises(p, 7);
    forall r: Prio
      ensures Bit(Power(p), r) <==> r == p
    {
      PowerBit(p, r);
    }
  }

  // ---------- From device to device ----------

  /** The header that SendPfcXoff and SendPfcXon build: one class, one quanta. */
  function PauseHeader(p: Prio, q: Word): Header {
    var zero: Quanta := [0, 0, 0, 0, 0, 0, 0, 0];
    OneBit(p);
    Header(PFC_OPCODE, Power(p), 0, zero[p := q])
  }

  /** The bytes of a signal: opcode 0x0101, the bit of the class, and the quanta in the class's place and nowhere else. */
  lemma SignalBytes(p: Prio, q: Word, r: Prio)
    ensures var b, worth := Encode(PauseHeader(p, q)), [1, 2, 4, 8, 16, 32, 64, 128];
      && b[0] == 1 && b[1] == 1 && b[2] == worth[p] && b[3] == 0
      && b[4 + 2 * r] as int * 256 + b[5 + 2 * r] as int == if r == p then q else 0
  {
    OneBit(p);
    BitWorth(Power(p), p);
    Layout(PauseHeader(p, q), r);
  }

  /** What HandleMacRx makes of a header. */
  function AsFrame(h: Header): Frame {
    Control(EnabledBy(h.classEnable), h.quanta)
  }

  /** Signal fidelity, on the way: the bytes that a device sends mean the pause frame of one class at the peer. */
  lemma FrameArrives(p: Prio, q: Word)
    ensures AsFrame(Decode(Encode(PauseHeader(p, q)))) == PauseFrame(p, q)
  {
    DecodeEncode(PauseHeader(p, q));
    OneBit(p);
  }

  /** Signal fidelity, at the peer: the pause frame changes the pause state of its class, as asked, and of no other. */
  lemma SignalArrives(c: Config, s: Dev, p: Prio, q: Word, r: Prio)
    ensures var s1 := ReceiveControl(c, s, PauseFrame(p, q));
      if r == p then
        s1.tx.paused[r] == (q > 0)
        && s1.tx.until[r] == s.sched.now + (if q == 0 then 0.0 else PauseTime(c, q))
      else s1.tx.paused[r] == s.tx.paused[r] && s1.tx.until[r] == s.tx.until[r]
  {
    ApplyBelowPauses(c, s, PauseFrame(p, q), 8, r);
  }

  // ---------- The class ----------

  /** A cursor over a byte buffer that advances as it reads and writes. */
  class BufferIterator {
    const data: array<Byte>
    var pos: nat

    constructor (data: array<Byte>)
      ensures this.data == data && pos == 0
    {
      this.data := data;
      pos := 0;
    }

    method WriteU8(b: Byte)
      requires pos < data.Length
      modifies this`pos, data
      ensures pos == old(pos) + 1
      ensures data[..] == old(data[..])[old(pos) := b]
    {
      data[pos] := b;
      pos := pos + 1;
    }

    method WriteHtonU16(w: Word)
      requires pos + 1 < data.Length
      modifies this`pos, data
      ensures pos == old(pos) + 2
      ensures data[..] == old(data[..])[old(pos) := w / 0x100][old(pos) + 1 := w % 0x100]
    {
      WriteU8(w / 0x100);
      WriteU8(w % 0x100);
    }

    method ReadU8() returns (b: Byte)
      requires pos < data.Length
      modifies this`pos
      ensures pos == old(pos) + 1 && b == data[old(pos)]
    {
      b := data[pos];
      pos := pos + 1;
    }

    method ReadNtohU16() returns (w: Word)
      requires pos + 1 < data.Length
      modifies this`pos
      ensures pos == old(pos) + 2 && w == Ntoh(data[old(pos)], data[old(pos) + 1])
    {
      var high := ReadU8();
      var low := ReadU8();
      w := Ntoh(high, low);
    }
  }

  class PfcHeader {
    var opcode: Word
    var classEnable: Byte
    var reserved: Byte
    var quanta: Quanta

    ghost function Abs(): Header
      reads this
    {
      Header(opcode, classEnable, reserved, quanta)
    }

    constructor ()
      ensures Abs() == Header(PFC_OPCODE, 0, 0, [0, 0, 0, 0, 0, 0, 0, 0])
    {
      opcode, classEnable, reserved := PFC_OPCODE, 0, 0;
      quanta := [0, 0, 0, 0, 0, 0, 0, 0];
    }

    method SetClassEnable(mask: Byte)
      modifies this`classEnable
      ensures classEnable == mask
    {
      classEnable := mask;
    }

    /** Classes beyond the eighth are ignored. */
    method SetPauseQuanta(prio: Byte, q: Word)
      modifies this`quanta
      ensures quanta == if prio < 8 then old(quanta)[prio := q] else old(quanta)
    {
      if prio < 8 {
        quanta := quanta[prio := q];
      }
    }

    function GetPauseQuanta(prio: Byte): (q: Word)
      reads this
    {
      if prio < 8 then quanta[prio] else 0
    }

    /** Serialize writes the encoding at the start of the buffer and nothing behind it. */
    method Serialize(i: BufferIterator)
      requires i.pos == 0 && SIZE <= i.data.Length
      modifies i`pos, i.data
      ensures i.pos == SIZE
      ensures i.data[..SIZE] == Encode(Abs()) && i.data[SIZE..] == old(i.data[SIZE..])
    {
      i.WriteHtonU16(opcode);
      i.WriteU8(classEnable);
      i.WriteU8(reserved);
      ghost var head := Hton(opcode) + [classEnable] + [reserved];
      assert i.data[..4] == head;
      for p := 0 to 8
        invariant i.pos == 4 + 2 * p
        invariant i.data[..i.pos] == head + EncodeQuanta(quanta, p)
        invariant i.data[SIZE..] == old(i.data[SIZE..])
      {
        i.WriteHtonU16(quanta[p]);
        assert i.data[..i.pos] == head + EncodeQuanta(quanta, p) + Hton(quanta[p]);
        assert head + EncodeQuanta(quanta, p) + Hton(quanta[p]) == head + (EncodeQuanta(quanta, p) + Hton(quanta[p]));
      }
    }

    method Deserialize(i: BufferIterator) returns (size: nat)
      requires i.pos == 0 && SIZE <= i.data.Length
      modifies this, i`pos
      ensures size == i.pos == SIZE
      ensures Abs() == Decode(i.data[..SIZE])
    {
      ghost var b := i.data[..SIZE];
      opcode := i.ReadNtohU16();
      classEnable := i.ReadU8();
      reserved := i.ReadU8();
      for p := 0 to 8
        invariant i.pos == 4 + 2 * p
        invariant opcode == Ntoh(b[0], b[1]) && classEnable == b[2] && reserved == b[3]
        invariant quanta[..p] == DecodeQuanta(b, p)
      {
        var w := i.ReadNtohU16();
        assert w == Ntoh(b[4 + 2 * p], b[5 + 2 * p]);
        ghost var before := quanta;
        quanta := quanta[p := w];
        assert quanta[..p + 1] == before[..p] + [w];
      }
      assert quanta[..8] == quanta;
      size := SIZE;
    }
  }

  // ---------- The two ends ----------

  /** The header that SendPfcXoff and SendPfcXon build and add to an empty packet. */
  method BuildHeader(prio: Prio, q: Word) returns (ph: PfcHeader)
    ensures fresh(ph) && ph.Abs() == PauseHeader(prio, q)
  {
    ph := new PfcHeader();
    OneBit(prio);
    ph.SetClassEnable(Power(prio));
    ph.SetPauseQuanta(prio, q);
  }

  method WriteSignal(prio: Prio, q: Word) returns (packet: array<Byte>)
    ensures fresh(packet) && packet.Length == SIZE && packet[..] == Encode(PauseHeader(prio, q))
  {
    var ph := BuildHeader(prio, q);
    packet := new Byte[SIZE](_ => 0);
    var i := new BufferIterator(packet);
    ph.Serialize(i);
    assert packet[..SIZE] == packet[..];
  }

  /** What HandleMacRx reads from a packet: the classes whose bit is set, and the quanta. */
  method ReadSignal(packet: array<Byte>) returns (f: Frame)
    requires SIZE <= packet.Length
    ensures f == AsFrame(Decode(packet[..SIZE]))
  {
    var ph := new PfcHeader();
    var i := new BufferIterator(packet);
    var size := ph.Deserialize(i);
    var enabled: set<Prio> := {};
    var quanta: Quanta := [0, 0, 0, 0, 0, 0, 0, 0];
    for pr := 0 to 8
      invariant forall p: Prio :: p in enabled <==> p < pr && Bit(ph.classEnable, p)
      invariant quanta[..pr] == ph.quanta[..pr]
    {
      var q := ph.GetPauseQuanta(pr);
      ghost var before := quanta;
      quanta := quanta[pr := q];
      assert quanta[..pr + 1] == before[..pr] + [q];
      assert ph.quanta[..pr + 1] == ph.quanta[..pr] + [q];
      if Bit(ph.classEnable, pr) {
        enabled := enabled + {pr};
      }
    }
    assert quanta[..8] == quanta && ph.quanta[..8] == ph.quanta;
    assert enabled == EnabledBy(ph.classEnable);
    f := Control(enabled, quanta);
  }

  /** From the setters to the peer: what is written for a class is read as the frame of that class. */
  method PassSignal(prio: Prio, q: Word) returns (f: Frame)
    ensures f == PauseFrame(prio, q)
  {
    var packet := WriteSignal(prio, q);
    assert packet[..SIZE] == packet[..];
    f := ReadSignal(packet);
    FrameArrives(prio, q);
  }
}
