/**
 The hand-written protobuf encoder of the remote-write exporter, and a decoder written from the
 Protocol Buffers encoding guide (sections "Base 128 Varints" and "Length-Delimited Records")
 for the WriteRequest message of the Prometheus Remote-Write 1.0 specification, section
 "Protocol". Encoding then decoding gives back every series.
 */
module Wire {
  import opened Common
  import opened Utf8

  const TWO_32: nat := 0x1_0000_0000
  const TWO_63: nat := 0x8000_0000_0000_0000
  const TWO_64: nat := 0x1_0000_0000_0000_0000

  /** The 64 bits of an IEEE double; what the number is does not matter to the wire. */
  type Bits = b: nat | b < TWO_64

  datatype Label = Label(name: string, value: string)
  datatype Sample = Sample(bits: Bits, timestamp: int)
  datatype Series = Series(labels: seq<Label>, samples: seq<Sample>)

  // ---- The encoder's meaning --------------------------------------------------------

  function Varint(v: nat): (bs: seq<Byte>)
    ensures |bs| >= 1
  {
    if v < 0x80 then [v] else [v % 0x80 + 0x80] + Varint(v / 0x80)
  }

  /** `protoVarint` works on `value >>> 0`. */
  function Varint32(v: nat): seq<Byte> {
    Varint(v % TWO_32)
  }

  /** `protoVarint64` pushes a negative number as it is; the byte array then keeps its low byte. */
  function Varint64(v: int): seq<Byte> {
    if v < 0 then [v % 256] else Varint(v)
  }

  function LittleEndian(bits: nat, n: nat): (bs: seq<Byte>)
    ensures |bs| == n
  {
    if n == 0 then [] else [bits % 256] + LittleEndian(bits / 256, n - 1)
  }

  function BytesField(tag: nat, data: seq<Byte>): (bs: seq<Byte>)
    ensures |bs| > |data|
  {
    Varint32(tag * 8 + 2) + Varint32(|data|) + data
  }

  function DoubleField(tag: nat, bits: Bits): seq<Byte> {
    Varint32(tag * 8 + 1) + LittleEndian(bits, 8)
  }

  function LabelBytes(l: Label): seq<Byte> {
    BytesField(1, Encode(l.name)) + BytesField(2, Encode(l.value))
  }

  function SampleBytes(s: Sample): seq<Byte> {
    DoubleField(1, s.bits) + Varint32(16) + Varint64(s.timestamp)
  }

  function LabelsBytes(labels: seq<Label>): seq<Byte> {
    if labels == [] then []
    else LabelsBytes(labels[..|labels| - 1]) + BytesField(1, LabelBytes(labels[|labels| - 1]))
  }

  function SamplesBytes(samples: seq<Sample>): seq<Byte> {
    if samples == [] then []
    else SamplesBytes(samples[..|samples| - 1]) + BytesField(2, SampleBytes(samples[|samples| - 1]))
  }

  function SeriesBytes(s: Series): seq<Byte> {
    LabelsBytes(s.labels) + SamplesBytes(s.samples)
  }

  function RequestBytes(request: seq<Series>): seq<Byte> {
    if request == [] then []
    else RequestBytes(request[..|request| - 1]) + BytesField(1, SeriesBytes(request[|request| - 1]))
  }

  lemma LowByteFirst(bits: nat, n: nat)
    requires n > 0
    ensures LittleEndian(bits, n) == [bits % 256] + LittleEndian(bits / 256, n - 1)
  {}

  // ---- The encoder ------------------------------------------------------------------

  /** Moving the first byte of what is still to come onto what is written. */
  lemma Shift(written: seq<Byte>, b: Byte, rest: seq<Byte>)
    ensures written + ([b] + rest) == written + [b] + rest
  {}

  class Buffer {
    var bytes: seq<Byte>

    constructor ()
      ensures bytes == []
    {
      bytes := [];
    }

    method Push(b: int)
      modifies this
      ensures bytes == old(bytes) + [b % 256]
    {
      bytes := bytes + [b % 256];
    }

    method ProtoVarint(value: nat)
      modifies this
      ensures bytes == old(bytes) + Varint32(value)
    {
      var v: nat := value % TWO_32;
      ghost var before := bytes;
      while v >= 0x80
        invariant bytes + Varint(v) == before + Varint32(value)
        decreases v
      {
        Shift(bytes, v % 0x80 + 0x80, Varint(v / 0x80));
        Push(v % 0x80 + 0x80);
        v := v / 0x80;
      }
      Push(v);
    }

    method ProtoVarint64(value: int)
      modifies this
      ensures bytes == old(bytes) + Varint64(value)
    {
      var v := value;
      ghost var before := bytes;
      while v >= 0x80
        invariant bytes + Varint64(v) == before + Varint64(value)
        decreases v
      {
        Shift(bytes, v % 0x80 + 0x80, Varint(v / 0x80));
        Push(v % 0x80 + 0x80);
        v := v / 0x80;
      }
      Push(v);
    }

    method ProtoBytes(tag: nat, data: seq<Byte>)
      modifies this
      ensures bytes == old(bytes) + BytesField(tag, data)
    {
      ProtoVarint(tag * 8 + 2);
      ProtoVarint(|data|);
      ghost var before := bytes;
      for i := 0 to |data|
        invariant bytes == before + data[..i]
      {
        Push(data[i]);
        assert data[..i + 1] == data[..i] + [data[i]];
      }
    }

    method ProtoDouble(tag: nat, bits: Bits)
      modifies this
      ensures bytes == old(bytes) + DoubleField(tag, bits)
    {
      ProtoVarint(tag * 8 + 1);
      WriteLittleEndian(bits);
    }

    method WriteLittleEndian(bits: Bits)
      modifies this
      ensures bytes == old(bytes) + LittleEndian(bits, 8)
    {
      hide LittleEndian;
      ghost var before := bytes;
      var rest: nat := bits;
      for i := 0 to 8
        invariant bytes + LittleEndian(rest, 8 - i) == before + LittleEndian(bits, 8)
      {
        LowByteFirst(rest, 8 - i);
        Shift(bytes, rest % 256, LittleEndian(rest / 256, 7 - i));
        Push(rest % 256);
        rest := rest / 256;
      }
      assert bytes == bytes + LittleEndian(rest, 0);
    }

    method EncodeLabel(l: Label)
      modifies this
      ensures bytes == old(bytes) + LabelBytes(l)
    {
      ProtoBytes(1, Encode(l.name));
      ProtoBytes(2, Encode(l.value));
    }

    method EncodeSample(s: Sample)
      modifies this
      ensures bytes == old(bytes) + SampleBytes(s)
    {
      ProtoDouble(1, s.bits);
      ProtoVarint(16);
      ProtoVarint64(s.timestamp);
    }
  }

  method EncodeSeries(series: Series) returns (bytes: seq<Byte>)
    ensures bytes == SeriesBytes(series)
  {
    hide BytesField, LabelBytes, SampleBytes;
    var ts := new Buffer();
    var labels, samples := series.labels, series.samples;
    for j := 0 to |labels|
      invariant ts.bytes == LabelsBytes(labels[..j])
    {
      var msg := new Buffer();
      msg.EncodeLabel(labels[j]);
      assert msg.bytes == LabelBytes(labels[j]);
      ts.ProtoBytes(1, msg.bytes);
      assert labels[..j + 1][..j] == labels[..j];
    }
    assert labels[..|labels|] == labels;
    for j := 0 to |samples|
      invariant ts.bytes == LabelsBytes(labels) + SamplesBytes(samples[..j])
    {
      var msg := new Buffer();
      msg.EncodeSample(samples[j]);
      assert msg.bytes == SampleBytes(samples[j]);
      ts.ProtoBytes(2, msg.bytes);
      assert samples[..j + 1][..j] == samples[..j];
    }
    assert samples[..|samples|] == samples;
    bytes := ts.bytes;
  }

  /** The request as the exporter builds it, message by message in nested buffers. */
  method EncodeRequest(request: seq<Series>) returns (bytes: seq<Byte>)
    ensures bytes == RequestBytes(request)
  {
    var out := new Buffer();
    for i := 0 to |request|
      invariant out.bytes == RequestBytes(request[..i])
    {
      var ts := EncodeSeries(request[i]);
      out.ProtoBytes(1, ts);
      assert request[..i + 1][..i] == request[..i];
    }
    assert request[..|request|] == request;
    bytes := out.bytes;
  }

  // ---- The decoder ------------------------------------------------------------------

  datatype Field =
    | VarintOf(tag: nat, value: nat)
    | Fixed64Of(tag: nat, bits: Bits)
    | BytesOf(tag: nat, data: seq<Byte>)

  /** At most `limit` groups of seven bits, least significant first, while the continuation bit is set. */
  function ReadGroups(bs: seq<Byte>, limit: nat): (r: Option<(nat, seq<Byte>)>)
    ensures r.Some? ==> |r.value.1| < |bs|
    decreases limit
  {
    if bs == [] || limit == 0 then None
    else if bs[0] < 0x80 then Some((bs[0], bs[1..]))
    else
      match ReadGroups(bs[1..], limit - 1)
      case None => None
      case Some((v, rest)) => Some((v * 0x80 + LowSeven(bs[0]), rest))
  }

  /** A varint has at most ten bytes, of which 64 bits count. */
  function ReadVarint(bs: seq<Byte>): (r: Option<(nat, seq<Byte>)>)
    ensures r.Some? ==> |r.value.1| < |bs| && r.value.0 < TWO_64
  {
    match ReadGroups(bs, 10)
    case None => None
    case Some((v, rest)) => Some((v % TWO_64, rest))
  }

  /** 64 bits as an int64. */
  function Signed(v: nat): int {
    if v < TWO_63 then v else v - TWO_64
  }

  function ReadInt64(bs: seq<Byte>): Option<(int, seq<Byte>)> {
    match ReadVarint(bs)
    case None => None
    case Some((v, rest)) => Some((Signed(v), rest))
  }

  function LowSeven(b: Byte): nat {
    b % 0x80
  }

  function ReadLittleEndian(bs: seq<Byte>): nat {
    if bs == [] then 0 else bs[0] + 256 * ReadLittleEndian(bs[1..])
  }

  function ReadField(bs: seq<Byte>): (r: Option<(Field, seq<Byte>)>)
    ensures r.Some? ==> |r.value.1| < |bs|
  {
    match ReadVarint(bs)
    case None => None
    case Some((key, rest)) =>
      var tag := key / 8;
      if key % 8 == 0 then
        match ReadVarint(rest)
        case None => None
        case Some((v, rest')) => Some((VarintOf(tag, v), rest'))
      else if key % 8 == 1 then
        if |rest| < 8 || ReadLittleEndian(rest[..8]) >= TWO_64 then None
        else Some((Fixed64Of(tag, ReadLittleEndian(rest[..8])), rest[8..]))
      else if key % 8 == 2 then
        match ReadVarint(rest)
        case None => None
        case Some((n, rest')) =>
          if n > |rest'| then None else Some((BytesOf(tag, rest'[..n]), rest'[n..]))
      else None
  }

  function ReadFields(bs: seq<Byte>): Option<seq<Field>>
    decreases |bs|
  {
    if bs == [] then Some([])
    else
      match ReadField(bs)
      case None => None
      case Some((f, rest)) =>
        match ReadFields(rest)
        case None => None
        case Some(fs) => Some([f] + fs)
  }

  /** A Label message: name is field 1, value is field 2, the last of each wins. */
  function LabelOf(fs: seq<Field>): Option<Label> {
    if fs == [] then Some(Label("", ""))
    else
      var last := fs[|fs| - 1];
      match LabelOf(fs[..|fs| - 1])
      case None => None
      case Some(l) =>
        if !last.BytesOf? then None
        else
          match Decode(last.data)
          case None => None
          case Some(text) =>
            if last.tag == 1 then Some(l.(name := text))
            else if last.tag == 2 then Some(l.(value := text))
            else None
  }

  /** A Sample message: value is a double in field 1, timestamp an int64 varint in field 2. */
  function SampleOf(fs: seq<Field>): Option<Sample> {
    if fs == [] then Some(Sample(0, 0))
    else
      var last := fs[|fs| - 1];
      match SampleOf(fs[..|fs| - 1])
      case None => None
      case Some(s) =>
        if last.Fixed64Of? && last.tag == 1 then Some(s.(bits := last.bits))
        else if last.VarintOf? && last.tag == 2 then Some(s.(timestamp := Signed(last.value)))
        else None
  }

  function Message<T>(data: seq<Byte>, of: seq<Field> -> Option<T>): Option<T> {
    match ReadFields(data)
    case None => None
    case Some(fs) => of(fs)
  }

  /** A TimeSeries message: labels are field 1, samples are field 2. */
  function SeriesOf(fs: seq<Field>): Option<Series> {
    if fs == [] then Some(Series([], []))
    else
      var last := fs[|fs| - 1];
      match SeriesOf(fs[..|fs| - 1])
      case None => None
      case Some(s) =>
        if last.BytesOf? && last.tag == 1 then
          match Message(last.data, LabelOf)
          case None => None
          case Some(l) => Some(s.(labels := s.labels + [l]))
        else if last.BytesOf? && last.tag == 2 then
          match Message(last.data, SampleOf)
          case None => None
          case Some(p) => Some(s.(samples := s.samples + [p]))
        else None
  }

  function RequestOf(fs: seq<Field>): Option<seq<Series>> {
    if fs == [] then Some([])
    else
      var last := fs[|fs| - 1];
      match RequestOf(fs[..|fs| - 1])
      case None => None
      case Some(r) =>
        if last.BytesOf? && last.tag == 1 then
          match Message(last.data, SeriesOf)
          case None => None
          case Some(s) => Some(r + [s])
        else None
  }

  function DecodeRequest(bs: seq<Byte>): Option<seq<Series>> {
    Message(bs, RequestOf)
  }

  // ---- Round trip -------------------------------------------------------------------

  function Pow128(n: nat): (p: nat)
    ensures p >= 1
  {
    if n == 0 then 1 else 0x80 * Pow128(n - 1)
  }

  lemma {:induction false} GroupsOfVarint(v: nat, rest: seq<Byte>, limit: nat)
    ensures ReadGroups(Varint(v) + rest, limit) == if limit > 0 && v < Pow128(limit) then Some((v, rest)) else None
    decreases limit
  {
    if v >= 0x80 && limit > 0 {
      var bs := Varint(v) + rest;
      assert bs[0] == v % 0x80 + 0x80 && bs[1..] == Varint(v / 0x80) + rest;
      GroupsOfVarint(v / 0x80, rest, limit - 1);
    }
  }

  lemma TenGroups()
    ensures Pow128(10) == 0x40 * TWO_64
  {
    assert Pow128(5) == 0x8_0000_0000;
  }

  /** A varint reads back, whatever follows it, exactly when it fits 64 bits. */
  lemma VarintRoundTripIff(v: nat, rest: seq<Byte>)
    ensures ReadVarint(Varint(v) + rest) == Some((v, rest)) <==> v < TWO_64
  {
    hide *;
    GroupsOfVarint(v, rest, 10);
    TenGroups();
    VarintIsGroups(Varint(v) + rest);
    BeyondSixtyFour(v);
  }

  lemma VarintIsGroups(bs: seq<Byte>)
    ensures ReadVarint(bs) == match ReadGroups(bs, 10)
                              case None => None
                              case Some((v, rest)) => Some((v % TWO_64, rest))
  {}

  lemma BeyondSixtyFour(v: nat)
    ensures v % TWO_64 == v <==> v < TWO_64
  {}

  /** What the code makes of a timestamp reads back exactly when it is a nonnegative int64. */
  lemma Varint64RoundTripIff(v: int, rest: seq<Byte>)
    ensures ReadInt64(Varint64(v) + rest) == Some((v, rest)) <==> 0 <= v < TWO_63
  {
    if v >= 0 {
      VarintRoundTripIff(v, rest);
      GroupsOfVarint(v, rest, 10);
      hide ReadGroups, Varint;
    } else {
      var bs := Varint64(v) + rest;
      assert bs[0] == v % 256 && bs[1..] == rest;
      assert ReadGroups(bs, 10).Some? ==> bs[0] < 0x80 || |ReadGroups(bs, 10).value.1| < |rest|;
      hide ReadGroups;
    }
  }

  function Pow256(n: nat): nat {
    if n == 0 then 1 else 256 * Pow256(n - 1)
  }

  lemma {:induction false} LittleEndianRoundTrip(bits: nat, n: nat)
    requires bits < Pow256(n)
    ensures ReadLittleEndian(LittleEndian(bits, n)) == bits
  {
    if n > 0 {
      var low, high := bits % 256, bits / 256;
      assert high < Pow256(n - 1);
      LittleEndianRoundTrip(high, n - 1);
      assert LittleEndian(bits, n)[1..] == LittleEndian(high, n - 1);
    }
  }

  lemma ReadRecord(bs: seq<Byte>, tag: nat, n: nat, rest: seq<Byte>, tail: seq<Byte>)
    requires ReadVarint(bs) == Some((tag * 8 + 2, rest)) && ReadVarint(rest) == Some((n, tail)) && n <= |tail|
    ensures ReadField(bs) == Some((BytesOf(tag, tail[..n]), tail[n..]))
  {
    hide ReadVarint;
  }

  lemma ReadDouble(bs: seq<Byte>, tag: nat, le: seq<Byte>, tail: seq<Byte>)
    requires |le| == 8 && ReadLittleEndian(le) < TWO_64
    requires ReadVarint(bs) == Some((tag * 8 + 1, le + tail))
    ensures ReadField(bs) == Some((Fixed64Of(tag, ReadLittleEndian(le)), tail))
  {
    hide ReadVarint, ReadLittleEndian;
    assert (le + tail)[..8] == le && (le + tail)[8..] == tail;
  }

  /** A length-delimited record reads back exactly when its length fits 32 bits. */
  lemma BytesFieldRoundTripIff(tag: nat, data: seq<Byte>, rest: seq<Byte>)
    requires tag * 8 + 2 < TWO_32
    ensures ReadField(BytesField(tag, data) + rest) == Some((BytesOf(tag, data), rest)) <==> |data| < TWO_32
  {
    hide ReadField, ReadVarint, Varint;
    var n := |data| % TWO_32;
    var tail := Varint(n) + (data + rest);
    assert BytesField(tag, data) + rest == Varint(tag * 8 + 2) + tail;
    VarintRoundTripIff(tag * 8 + 2, tail);
    VarintRoundTripIff(n, data + rest);
    ReadRecord(BytesField(tag, data) + rest, tag, n, tail, data + rest);
    if |data| < TWO_32 {
      assert (data + rest)[..n] == data && (data + rest)[n..] == rest;
    } else {
      assert |(data + rest)[..n]| == n;
    }
  }

  lemma DoubleFieldRoundTrip(tag: nat, bits: Bits, rest: seq<Byte>)
    requires tag * 8 + 1 < TWO_32
    ensures ReadField(DoubleField(tag, bits) + rest) == Some((Fixed64Of(tag, bits), rest))
  {
    hide ReadField, ReadVarint, Varint, LittleEndian, ReadLittleEndian;
    var le := LittleEndian(bits, 8);
    assert DoubleField(tag, bits) + rest == Varint(tag * 8 + 1) + (le + rest);
    VarintRoundTripIff(tag * 8 + 1, le + rest);
    assert Pow256(8) == TWO_64 by {
      assert Pow256(4) == 0x1_0000_0000;
    }
    LittleEndianRoundTrip(bits, 8);
    ReadDouble(DoubleField(tag, bits) + rest, tag, le, rest);
  }

  lemma ReadFieldsCons(bs: seq<Byte>, f: Field, rest: seq<Byte>, fs: seq<Field>)
    requires ReadField(bs) == Some((f, rest)) && ReadFields(rest) == Some(fs)
    ensures ReadFields(bs) == Some([f] + fs)
  {}

  lemma ReadOneField(bs: seq<Byte>, f: Field)
    requires ReadField(bs + []) == Some((f, []))
    ensures ReadFields(bs) == Some([f])
  {
    assert bs + [] == bs;
    ReadFieldsCons(bs, f, [], []);
    assert [f] + [] == [f];
  }

  lemma LabelRoundTrip(l: Label)
    requires |LabelBytes(l)| < TWO_32
    ensures Message(LabelBytes(l), LabelOf) == Some(l)
  {
    var name, value := Encode(l.name), Encode(l.value);
    BytesFieldRoundTripIff(1, name, BytesField(2, value));
    BytesFieldRoundTripIff(2, value, []);
    ReadOneField(BytesField(2, value), BytesOf(2, value));
    var fs := [BytesOf(1, name), BytesOf(2, value)];
    assert [BytesOf(1, name)] + [BytesOf(2, value)] == fs;
    ReadFieldsCons(LabelBytes(l), BytesOf(1, name), BytesField(2, value), [BytesOf(2, value)]);
    RoundTrip(l.name);
    RoundTrip(l.value);
    assert fs[..1] == [BytesOf(1, name)] && fs[..1][..0] == [];
    assert LabelOf(fs[..1]) == Some(Label(l.name, ""));
  }

  /** No bytes are left over after the timestamp. */
  lemma TimestampIsWhole(v: int)
    ensures var r := ReadVarint(Varint64(v));
            r.Some? ==> r.value.1 == []
  {
    if v >= 0 {
      GroupsOfVarint(v, [], 10);
      assert Varint(v) + [] == Varint(v);
    }
  }

  lemma ReadNumber(bs: seq<Byte>, tag: nat, rest: seq<Byte>)
    requires ReadVarint(bs) == Some((tag * 8, rest))
    ensures ReadField(bs) == match ReadVarint(rest)
                             case None => None
                             case Some((v, tail)) => Some((VarintOf(tag, v), tail))
  {}

  /** What a Sample message decodes to, whatever its timestamp was. */
  lemma SampleReads(s: Sample)
    ensures Message(SampleBytes(s), SampleOf)
         == match ReadVarint(Varint64(s.timestamp))
            case None => None
            case Some((v, _)) => Some(Sample(s.bits, Signed(v)))
  {
    hide ReadVarint, ReadField, Varint, Varint64, Signed, DoubleField;
    var tail := Varint64(s.timestamp);
    var ts := Varint32(16) + tail;
    assert SampleBytes(s) == DoubleField(1, s.bits) + ts;
    DoubleFieldRoundTrip(1, s.bits, ts);
    VarintRoundTripIff(16, tail);
    ReadNumber(ts, 2, tail);
    TimestampIsWhole(s.timestamp);
    hide SampleBytes, SampleOf;
    if ReadVarint(tail).Some? {
      var v := ReadVarint(tail).value.0;
      assert [VarintOf(2, v)] + [] == [VarintOf(2, v)];
      ReadFieldsCons(ts, VarintOf(2, v), [], []);
      ReadFieldsCons(SampleBytes(s), Fixed64Of(1, s.bits), ts, [VarintOf(2, v)]);
      SampleOfTwo(s.bits, v);
    } else {
      assert ReadField(DoubleField(1, s.bits) + ts).Some? && ReadFields(ts).None?;
    }
  }

  lemma SampleOfTwo(bits: Bits, v: nat)
    ensures SampleOf([Fixed64Of(1, bits)] + [VarintOf(2, v)]) == Some(Sample(bits, Signed(v)))
  {
    var fs := [Fixed64Of(1, bits)] + [VarintOf(2, v)];
    assert fs[..1] == [Fixed64Of(1, bits)] && fs[..1][..0] == [];
    assert SampleOf(fs[..1]) == Some(Sample(bits, 0));
  }

  /** A sample reads back exactly when its timestamp is a nonnegative int64. */
  lemma SampleRoundTripIff(s: Sample)
    ensures Message(SampleBytes(s), SampleOf) == Some(s) <==> 0 <= s.timestamp < TWO_63
  {
    hide ReadVarint, Varint64, Signed, SampleBytes, SampleOf, Message;
    SampleReads(s);
    TimestampIsWhole(s.timestamp);
    Varint64RoundTripIff(s.timestamp, []);
    assert Varint64(s.timestamp) + [] == Varint64(s.timestamp);
  }

  /** Reading a record after bytes that read as whole fields appends it to those fields. */
  lemma {:induction false} ReadFieldsAppend(bs: seq<Byte>, fs: seq<Field>, tag: nat, data: seq<Byte>)
    requires ReadFields(bs) == Some(fs) && tag * 8 + 2 < TWO_32 && |data| < TWO_32
    ensures ReadFields(bs + BytesField(tag, data)) == Some(fs + [BytesOf(tag, data)])
    decreases |bs|
  {
    var last := BytesField(tag, data);
    if bs == [] {
      BytesFieldRoundTripIff(tag, data, []);
      ReadOneField(last, BytesOf(tag, data));
      assert [] + last == last;
      assert fs + [BytesOf(tag, data)] == [BytesOf(tag, data)];
    } else {
      var (f, rest) := ReadField(bs).value;
      ReadFieldExtends(bs, last);
      ReadFieldsAppend(rest, ReadFields(rest).value, tag, data);
      ReadFieldsCons(bs + last, f, rest + last, ReadFields(rest).value + [BytesOf(tag, data)]);
      assert [f] + (ReadFields(rest).value + [BytesOf(tag, data)]) == fs + [BytesOf(tag, data)];
    }
  }

  lemma {:induction false} ReadGroupsExtends(bs: seq<Byte>, limit: nat, more: seq<Byte>)
    requires ReadGroups(bs, limit).Some?
    ensures ReadGroups(bs + more, limit)
         == Some((ReadGroups(bs, limit).value.0, ReadGroups(bs, limit).value.1 + more))
    decreases limit
  {
    assert (bs + more)[1..] == bs[1..] + more;
    if bs[0] >= 0x80 {
      ReadGroupsExtends(bs[1..], limit - 1, more);
    }
  }

  lemma ReadVarintExtends(bs: seq<Byte>, more: seq<Byte>)
    requires ReadVarint(bs).Some?
    ensures ReadVarint(bs + more) == Some((ReadVarint(bs).value.0, ReadVarint(bs).value.1 + more))
  {
    ReadGroupsExtends(bs, 10, more);
  }

  lemma ReadFieldExtends(bs: seq<Byte>, more: seq<Byte>)
    requires ReadField(bs).Some?
    ensures ReadField(bs + more) == Some((ReadField(bs).value.0, ReadField(bs).value.1 + more))
  {
    hide ReadVarint;
    ReadVarintExtends(bs, more);
    var (key, rest) := ReadVarint(bs).value;
    if key % 8 == 1 {
      assert (rest + more)[..8] == rest[..8] && (rest + more)[8..] == rest[8..] + more;
    } else {
      ReadVarintExtends(rest, more);
      if key % 8 == 2 {
        var (n, rest') := ReadVarint(rest).value;
        assert (rest' + more)[..n] == rest'[..n] && (rest' + more)[n..] == rest'[n..] + more;
      }
    }
  }

  function LabelFields(labels: seq<Label>): (fs: seq<Field>)
    ensures |fs| == |labels|
  {
    seq(|labels|, i requires 0 <= i < |labels| => BytesOf(1, LabelBytes(labels[i])))
  }

  /** One more label field, on both sides. */
  lemma SeriesOfLabel(fs: seq<Field>, s: Series, l: Label)
    requires SeriesOf(fs) == Some(s) && Message(LabelBytes(l), LabelOf) == Some(l)
    ensures SeriesOf(fs + [BytesOf(1, LabelBytes(l))]) == Some(s.(labels := s.labels + [l]))
  {
    hide LabelBytes, Message;
    assert (fs + [BytesOf(1, LabelBytes(l))])[..|fs|] == fs;
  }

  lemma SeriesOfSample(fs: seq<Field>, s: Series, p: Sample)
    requires SeriesOf(fs) == Some(s) && Message(SampleBytes(p), SampleOf) == Some(p)
    ensures SeriesOf(fs + [BytesOf(2, SampleBytes(p))]) == Some(s.(samples := s.samples + [p]))
  {
    hide SampleBytes, Message;
    assert (fs + [BytesOf(2, SampleBytes(p))])[..|fs|] == fs;
  }

  lemma {:induction false} LabelsRoundTrip(labels: seq<Label>)
    requires |LabelsBytes(labels)| < TWO_32
    ensures ReadFields(LabelsBytes(labels)) == Some(LabelFields(labels))
    ensures SeriesOf(LabelFields(labels)) == Some(Series(labels, []))
  {
    hide BytesField, LabelBytes, ReadFields, SeriesOf, Message;
    if labels == [] {
      EmptyMessage();
    } else {
      var n := |labels| - 1;
      LabelsRoundTrip(labels[..n]);
      LabelRoundTrip(labels[n]);
      ReadFieldsAppend(LabelsBytes(labels[..n]), LabelFields(labels[..n]), 1, LabelBytes(labels[n]));
      SeriesOfLabel(LabelFields(labels[..n]), Series(labels[..n], []), labels[n]);
      assert LabelFields(labels) == LabelFields(labels[..n]) + [BytesOf(1, LabelBytes(labels[n]))];
      assert labels[..n] + [labels[n]] == labels;
    }
  }

  lemma EmptyMessage()
    ensures ReadFields([]) == Some([]) && SeriesOf([]) == Some(Series([], []))
  {}

  function SampleFields(samples: seq<Sample>): (fs: seq<Field>)
    ensures |fs| == |samples|
  {
    seq(|samples|, i requires 0 <= i < |samples| => BytesOf(2, SampleBytes(samples[i])))
  }

  lemma {:induction false} SeriesRoundTrip(labels: seq<Label>, samples: seq<Sample>)
    requires |SeriesBytes(Series(labels, samples))| < TWO_32
    requires forall i :: 0 <= i < |samples| ==> 0 <= samples[i].timestamp < TWO_63
    ensures var fs := LabelFields(labels) + SampleFields(samples);
            && ReadFields(SeriesBytes(Series(labels, samples))) == Some(fs)
            && SeriesOf(fs) == Some(Series(labels, samples))
    decreases |samples|
  {
    hide BytesField, LabelBytes, SampleBytes, ReadFields, LabelsBytes, SeriesOf, Message;
    if samples == [] {
      LabelsRoundTrip(labels);
      assert LabelsBytes(labels) + SamplesBytes([]) == LabelsBytes(labels);
      assert LabelFields(labels) + SampleFields([]) == LabelFields(labels);
    } else {
      var n := |samples| - 1;
      var sofar := LabelsBytes(labels) + SamplesBytes(samples[..n]);
      SeriesRoundTrip(labels, samples[..n]);
      SampleRoundTripIff(samples[n]);
      var fs := LabelFields(labels) + SampleFields(samples[..n]);
      var last := BytesOf(2, SampleBytes(samples[n]));
      assert sofar + BytesField(2, SampleBytes(samples[n])) == SeriesBytes(Series(labels, samples));
      ReadFieldsAppend(sofar, fs, 2, SampleBytes(samples[n]));
      SeriesOfSample(fs, Series(labels, samples[..n]), samples[n]);
      assert SampleFields(samples) == SampleFields(samples[..n]) + [last];
      assert LabelFields(labels) + SampleFields(samples) == fs + [last];
      assert samples[..n] + [samples[n]] == samples;
    }
  }

  /** What the format can carry: messages below 2^32 bytes, timestamps that are nonnegative int64s. */
  ghost predicate Encodable(s: Series) {
    |SeriesBytes(s)| < TWO_32 && forall i :: 0 <= i < |s.samples| ==> 0 <= s.samples[i].timestamp < TWO_63
  }

  function RequestFields(request: seq<Series>): (fs: seq<Field>)
    ensures |fs| == |request|
  {
    seq(|request|, i requires 0 <= i < |request| => BytesOf(1, SeriesBytes(request[i])))
  }

  lemma RequestOfSeries(fs: seq<Field>, request: seq<Series>, s: Series)
    requires RequestOf(fs) == Some(request) && Message(SeriesBytes(s), SeriesOf) == Some(s)
    ensures RequestOf(fs + [BytesOf(1, SeriesBytes(s))]) == Some(request + [s])
  {
    hide SeriesBytes, Message;
    assert (fs + [BytesOf(1, SeriesBytes(s))])[..|fs|] == fs;
  }

  /** One TimeSeries message reads back as the series. */
  lemma SeriesMessage(s: Series)
    requires Encodable(s)
    ensures Message(SeriesBytes(s), SeriesOf) == Some(s)
  {
    hide SeriesBytes, ReadFields, SeriesOf, LabelFields, SampleFields;
    SeriesRoundTrip(s.labels, s.samples);
    assert Series(s.labels, s.samples) == s;
  }

  lemma EmptyRequest()
    ensures ReadFields([]) == Some([]) && RequestOf([]) == Some([])
  {}

  lemma {:induction false} RequestFieldsRoundTrip(request: seq<Series>)
    requires forall i :: 0 <= i < |request| ==> Encodable(request[i])
    ensures ReadFields(RequestBytes(request)) == Some(RequestFields(request))
    ensures RequestOf(RequestFields(request)) == Some(request)
  {
    hide BytesField, SeriesBytes, ReadFields, SeriesOf, RequestOf, Message;
    if request == [] {
      EmptyRequest();
    } else {
      var n := |request| - 1;
      RequestFieldsRoundTrip(request[..n]);
      assert Encodable(request[n]);
      SeriesMessage(request[n]);
      ReadFieldsAppend(RequestBytes(request[..n]), RequestFields(request[..n]), 1, SeriesBytes(request[n]));
      RequestOfSeries(RequestFields(request[..n]), request[..n], request[n]);
      assert RequestFields(request) == RequestFields(request[..n]) + [BytesOf(1, SeriesBytes(request[n]))];
      assert request[..n] + [request[n]] == request;
    }
  }

  /** Decoding an encoded request gives back every series, label, value and timestamp. */
  lemma RequestRoundTrip(request: seq<Series>)
    requires forall i :: 0 <= i < |request| ==> Encodable(request[i])
    ensures DecodeRequest(RequestBytes(request)) == Some(request)
  {
    RequestFieldsRoundTrip(request);
  }
}
