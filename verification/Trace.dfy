/** The packed trace record qem_trace_t and the trace file format of QEMTrace. */
module Trace {
  import opened Bytes

  /** The bits of qem_tracing_state and of QEM_TRACE_TTYPE_E: data and instruction tracing. */
  datatype Kinds = Kinds(data: bool, inst: bool)

  const NONE: Kinds := Kinds(false, false)

  /** state & ~kinds. */
  function Without(state: Kinds, kinds: Kinds): Kinds {
    Kinds(state.data && !kinds.data, state.inst && !kinds.inst)
  }

  /** QEM_TRACE_TARGET_64 and QEM_TRACE_GATHER_META. */
  datatype Layout = Layout(wide: bool, meta: bool)

  /** The arguments of qem_trace_output that reach the record. */
  datatype Access = Access(phys: nat, core: nat, time: nat, flags: nat)

  function AddressWidth(l: Layout): nat {
    if l.wide then 8 else 4
  }

  /** sizeof(qem_trace_t). */
  function RecordSize(l: Layout): nat {
    AddressWidth(l) + if l.meta then 12 else 1
  }

  /** Arguments of the C types uint32_t and uint64_t. */
  ghost predicate AccessOk(l: Layout, a: Access) {
    && a.phys < Capacity(AddressWidth(l)) && a.core < Capacity(4)
    && a.time < Capacity(8) && a.flags < Capacity(4)
  }

  /** (core & 0xFF) | (flags & 0xFFFFFF00). */
  function MetaFlags(a: Access): nat {
    a.core % 256 + a.flags / 256 * 256
  }

  function Record(l: Layout, a: Access): (r: seq<Byte>)
    ensures |r| == RecordSize(l)
  {
    Little(AddressWidth(l), a.phys) + Rest(l, a)
  }

  /** What follows the address. */
  function Rest(l: Layout, a: Access): seq<Byte> {
    if l.meta then Little(8, a.time) + Little(4, MetaFlags(a)) else Little(1, a.flags)
  }

  // What a reader of the trace can recover from a record.

  function PhysOf(l: Layout, r: seq<Byte>): nat
    requires |r| == RecordSize(l)
  {
    FromLittle(r[..AddressWidth(l)])
  }

  function TimeOf(l: Layout, r: seq<Byte>): nat
    requires |r| == RecordSize(l) && l.meta
  {
    FromLittle(r[AddressWidth(l)..AddressWidth(l) + 8])
  }

  function FlagsOf(l: Layout, r: seq<Byte>): nat
    requires |r| == RecordSize(l)
  {
    FromLittle(r[if l.meta then AddressWidth(l) + 8 else AddressWidth(l)..])
  }

  lemma Capacities()
    ensures Capacity(1) == 256 && Capacity(4) == 0x1_0000_0000
  {
    assert Capacity(2) == 0x1_0000;
  }

  lemma MetaFlagsFit(a: Access)
    requires a.flags < Capacity(4)
    ensures MetaFlags(a) < Capacity(4)
    ensures MetaFlags(a) % 256 == a.core % 256 && MetaFlags(a) / 256 == a.flags / 256
  {
    Capacities();
  }

  lemma LittleDropsUpper(x: nat)
    ensures FromLittle(Little(1, x)) == x % 256
  {
    assert Little(1, x) == [(x % 256) as Byte];
    assert [(x % 256) as Byte][1..] == [];
  }

  /** A record gives back the address, and with metadata the time, the low byte of the core
      and the flags above it; without, the low byte of the flags. */
  lemma RecordRoundTrip(l: Layout, a: Access)
    requires AccessOk(l, a)
    ensures PhysOf(l, Record(l, a)) == a.phys
    ensures l.meta ==> TimeOf(l, Record(l, a)) == a.time
    ensures l.meta ==> FlagsOf(l, Record(l, a)) % 256 == a.core % 256
                       && FlagsOf(l, Record(l, a)) / 256 == a.flags / 256
    ensures !l.meta ==> FlagsOf(l, Record(l, a)) == a.flags % 256
  {
    var w := AddressWidth(l);
    LittleRoundTrip(w, a.phys);
    if l.meta {
      MetaFlagsFit(a);
      ThreeParts(Little(w, a.phys), Little(8, a.time), Little(4, MetaFlags(a)));
      LittleRoundTrip(8, a.time);
      LittleRoundTrip(4, MetaFlags(a));
    } else {
      TwoParts(Little(w, a.phys), Little(1, a.flags));
      LittleDropsUpper(a.flags);
    }
  }

  lemma TwoParts(x: seq<Byte>, y: seq<Byte>)
    ensures (x + y)[..|x|] == x && (x + y)[|x|..] == y
  {
  }

  lemma ThreeParts(x: seq<Byte>, y: seq<Byte>, z: seq<Byte>)
    ensures var s := x + (y + z); s[..|x|] == x && s[|x|..|x| + |y|] == y && s[|x| + |y|..] == z
  {
  }

  ghost predicate IsNull(l: Layout, a: Access) {
    && a.phys == 0
    && if l.meta then a.time == 0 && a.core % 256 == 0 && a.flags / 256 == 0 else a.flags % 256 == 0
  }

  /** The accesses whose record is all zeros, and so looks like the end of a session. */
  lemma NullRecord(l: Layout, a: Access)
    requires AccessOk(l, a)
    ensures Record(l, a) == Zeros(RecordSize(l)) <==> IsNull(l, a)
  {
    LittleZero(AddressWidth(l), a.phys);
    ZeroParts(Little(AddressWidth(l), a.phys), Rest(l, a));
    NullRest(l, a);
  }

  lemma NullRest(l: Layout, a: Access)
    requires AccessOk(l, a)
    ensures Rest(l, a) == Zeros(|Rest(l, a)|) <==>
            if l.meta then a.time == 0 && a.core % 256 == 0 && a.flags / 256 == 0 else a.flags % 256 == 0
  {
    if l.meta {
      MetaFlagsFit(a);
      LittleZero(8, a.time);
      LittleZero(4, MetaFlags(a));
      ZeroParts(Little(8, a.time), Little(4, MetaFlags(a)));
    } else {
      Capacities();
      LittleZero(1, a.flags % 256);
      assert Little(1, a.flags) == Little(1, a.flags % 256);
    }
  }
}
