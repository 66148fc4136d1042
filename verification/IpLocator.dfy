/**
  The 17mon address table: a binary file with a big-endian header, a little-endian index by first
  octet, records of a bound, a 24-bit offset and a length, and a text area; and the search in it.
 */
module IpLocator {
  import opened Wrappers
  import opened Splitting

  type byte = x: int | 0 <= x < 0x100

  type uint32 = x: int | 0 <= x < 0x1_0000_0000

  const MAX_ADDRESS: uint32 := 0xffff_ffff

  /** The header offset of the text area counts this many bytes too many. */
  const TEXT_SHIFT := 1024

  /** Where the records begin: after the header and 256 index entries of four bytes. */
  const RECORDS := 4 + 1024

  // ---------- The search ----------

  /** The five fields of the locator. */
  datatype Table = Table(bounds: seq<uint32>, offsets: seq<int>, lengths: seq<int>, index: seq<int>, text: seq<byte>)

  /** The first record whose bound is at least the address: a scan from the start. */
  function LinearScan(bounds: seq<uint32>, ip: int): (i: nat)
    ensures i <= |bounds|
    ensures forall j | 0 <= j < i :: bounds[j] < ip
    ensures i < |bounds| ==> bounds[i] >= ip
  {
    if bounds == [] || bounds[0] >= ip then 0
    else
      var i := LinearScan(bounds[1..], ip);
      assert forall j | 0 < j <= i :: bounds[j] == bounds[1..][j - 1];
      i + 1
  }

  ghost predicate Sorted(bounds: seq<uint32>) {
    forall i, j | 0 <= i < j < |bounds| :: bounds[i] <= bounds[j]
  }

  ghost predicate WellFormed(t: Table) {
    && |t.bounds| > 0 && |t.offsets| == |t.bounds| && |t.lengths| == |t.bounds| && |t.index| == 256
    && Sorted(t.bounds) && t.bounds[|t.bounds| - 1] == MAX_ADDRESS
    && (forall b | 0 <= b < 256 :: t.index[b] == LinearScan(t.bounds, b * 0x100_0000))
    && (forall i | 0 <= i < |t.bounds| ::
          0 <= t.offsets[i] && 0 <= t.lengths[i] && t.offsets[i] + t.lengths[i] <= |t.text|)
  }

  /** The window given by the first octet contains the record the scan finds. */
  lemma WindowContains(t: Table, ip: uint32)
    requires WellFormed(t)
    ensures 0 <= t.index[ip / 0x100_0000] <= LinearScan(t.bounds, ip) < |t.bounds|
    ensures ip / 0x100_0000 < 0xff ==> LinearScan(t.bounds, ip) <= t.index[ip / 0x100_0000 + 1] < |t.bounds|
  {
    var b := ip / 0x100_0000;
    assert t.index[b] == LinearScan(t.bounds, b * 0x100_0000);
    assert b != 0xff ==> t.index[b + 1] == LinearScan(t.bounds, (b + 1) * 0x100_0000);
    assert t.bounds[|t.bounds| - 1] >= ip;
  }

  /** A position in the window that separates smaller bounds from the others is the one the scan finds. */
  lemma ScanInWindow(bounds: seq<uint32>, ip: uint32, start: int, end: int, idx: int)
    requires 0 <= start <= LinearScan(bounds, ip) <= end < |bounds| && start <= idx <= end
    requires forall i | start <= i < idx :: bounds[i] < ip
    requires forall i | idx <= i < end :: ip <= bounds[i]
    ensures idx == LinearScan(bounds, ip)
  {
    var found := LinearScan(bounds, ip);
    var atFound, atIdx := bounds[found], bounds[idx];
  }

  /** One more than the integer part of the logarithm to base 2; 0 for 0. */
  function Bits(n: nat): nat {
    if n == 0 then 0 else 1 + Bits(n / 2)
  }

  function Power2(n: nat): nat {
    if n == 0 then 1 else 2 * Power2(n - 1)
  }

  lemma {:induction false} BitsIsLog(n: nat)
    requires n > 0
    ensures Bits(n) > 0 && Power2(Bits(n) - 1) <= n < Power2(Bits(n))
  {
    if n > 1 {
      BitsIsLog(n / 2);
    }
  }

  lemma {:induction false} BitsMonotone(m: nat, n: nat)
    requires m <= n
    ensures Bits(m) <= Bits(n)
  {
    if m > 0 {
      BitsMonotone(m / 2, n / 2);
    }
  }

  // ---------- The text of a record ----------

  datatype LocationInfo = LocationInfo(country: seq<byte>, region: seq<byte>, city: seq<byte>, isp: seq<byte>)

  const TAB: byte := 9

  /** The bytes of "N/A". */
  const NULL: seq<byte> := [78, 47, 65]

  function OrNull(field: seq<byte>): (f: seq<byte>)
    ensures f != []
  {
    if field == [] then NULL else field
  }

  /** The location a text describes; none if the text has neither three nor four tabs. */
  function Describe(str: seq<byte>): (info: Option<LocationInfo>)
    ensures info == None <==> Count(str, TAB) !in {3, 4}
  {
    SplitCount(str, TAB);
    var fields := Split(str, TAB);
    if |fields| == 4 then Some(LocationInfo(OrNull(fields[0]), OrNull(fields[1]), OrNull(fields[2]), NULL))
    else if |fields| == 5 then Some(LocationInfo(OrNull(fields[0]), OrNull(fields[1]), OrNull(fields[2]), OrNull(fields[4])))
    else None
  }

  /** Of five fields the first three are country, region and city, and the last is the provider. */
  lemma FiveFields(a: seq<byte>, b: seq<byte>, c: seq<byte>, x: seq<byte>, e: seq<byte>)
    requires TAB !in a && TAB !in b && TAB !in c && TAB !in x && TAB !in e
    ensures Describe(Join([a, b, c, x, e], TAB))
         == Some(LocationInfo(if a == [] then [78, 47, 65] else a, if b == [] then [78, 47, 65] else b,
                              if c == [] then [78, 47, 65] else c, if e == [] then [78, 47, 65] else e))
  {
    SplitOfJoin([a, b, c, x, e], TAB);
  }

  /** Four fields name no provider; the last of them is not given out. */
  lemma FourFields(a: seq<byte>, b: seq<byte>, c: seq<byte>, x: seq<byte>)
    requires TAB !in a && TAB !in b && TAB !in c && TAB !in x
    ensures Describe(Join([a, b, c, x], TAB))
         == Some(LocationInfo(if a == [] then [78, 47, 65] else a, if b == [] then [78, 47, 65] else b,
                              if c == [] then [78, 47, 65] else c, [78, 47, 65]))
  {
    SplitOfJoin([a, b, c, x], TAB);
  }

  /** What the scan gives for an address. */
  ghost function Lookup(t: Table, ip: uint32): Option<LocationInfo>
    requires WellFormed(t)
  {
    WindowContains(t, ip);
    var i := LinearScan(t.bounds, ip);
    Describe(t.text[t.offsets[i]..t.offsets[i] + t.lengths[i]])
  }

  // ---------- The file layout ----------

  function BigEndian32(b: seq<byte>): (x: uint32)
    requires |b| == 4
  {
    (b[0] as int) * 0x100_0000 + (b[1] as int) * 0x1_0000 + (b[2] as int) * 0x100 + b[3]
  }

  function LittleEndian32(b: seq<byte>): (x: uint32)
    requires |b| == 4
  {
    b[0] + (b[1] as int) * 0x100 + (b[2] as int) * 0x1_0000 + (b[3] as int) * 0x100_0000
  }

  function LittleEndian24(b: seq<byte>): (x: int)
    requires |b| == 3
    ensures 0 <= x < 0x100_0000
  {
    b[0] + (b[1] as int) * 0x100 + (b[2] as int) * 0x1_0000
  }

  /** The weights of the bytes, in both orders. */
  lemma ByteOrders()
    ensures BigEndian32([1, 2, 3, 4]) == 0x0102_0304 && LittleEndian32([1, 2, 3, 4]) == 0x0403_0201
    ensures LittleEndian24([1, 2, 3]) == 0x03_0201 && TAB == '\t' as int
  {
  }

  /** Go's integer division, which truncates toward zero. */
  function Quotient(a: int, b: int): int
    requires b > 0
  {
    if a >= 0 then a / b else -(-a / b)
  }

  function TextOffset(data: seq<byte>): int
    requires |data| >= 4
  {
    BigEndian32(data[..4])
  }

  /** The number of records a header announces. */
  function RecordCount(textoff: int): int {
    Quotient(textoff - 4 - 1024 - 1024, 8)
  }

  /**
    Decoding gets through without an access that Go refuses.  The file is the first `len` bytes of its
    buffer: parts of a slice may go on to the end of the buffer, while single bytes and the text may not.
   */
  predicate Accepts(data: seq<byte>, len: nat)
    requires len <= |data|
  {
    && |data| >= RECORDS
    && 0 <= TextOffset(data) - TEXT_SHIFT <= len
    && RecordCount(TextOffset(data)) >= 0
  }

  /** Accepted are the files that are long enough and whose header is at least 2045, where the division gives 0. */
  lemma AcceptedHeaders(data: seq<byte>, len: nat)
    requires len <= |data|
    ensures Accepts(data, len) <==> |data| >= 1028 && 2045 <= TextOffset(data) <= len + 1024
  {
  }

  /** The records of an accepted file lie between the index and the text area, inside the file. */
  lemma RecordsBeforeText(data: seq<byte>, len: nat, i: nat)
    requires len <= |data| && Accepts(data, len) && i < RecordCount(TextOffset(data))
    ensures RECORDS + i * 8 + 8 <= TextOffset(data) - TEXT_SHIFT <= len
  {
  }

  /**
    The index of an accepted file lies before the text area exactly if the header leaves room for it; only
    otherwise, and then without any records, it may go beyond the end of the file.
   */
  lemma IndexBeforeText(data: seq<byte>, len: nat)
    requires len <= |data| && Accepts(data, len)
    ensures RECORDS <= TextOffset(data) - TEXT_SHIFT <==> TextOffset(data) >= 2052
    ensures TextOffset(data) < 2052 ==> 2045 <= TextOffset(data) && RecordCount(TextOffset(data)) == 0
    ensures len < RECORDS ==> TextOffset(data) < 2052
  {
  }

  function IndexEntry(data: seq<byte>, b: nat): int
    requires |data| >= RECORDS && b < 256
  {
    var off := 4 + b * 4;
    LittleEndian32(data[off..off + 4])
  }

  function RecordBound(data: seq<byte>, i: nat): uint32
    requires |data| >= RECORDS + i * 8 + 8
  {
    var off := RECORDS + i * 8;
    BigEndian32(data[off..off + 4])
  }

  function RecordOffset(data: seq<byte>, i: nat): int
    requires |data| >= RECORDS + i * 8 + 8
  {
    var off := RECORDS + i * 8;
    LittleEndian24(data[off + 4..off + 7])
  }

  function RecordLength(data: seq<byte>, i: nat): int
    requires |data| >= RECORDS + i * 8 + 8
  {
    data[RECORDS + i * 8 + 7]
  }

  ghost predicate Decodes(data: seq<byte>, len: nat, t: Table)
    requires len <= |data|
  {
    && Accepts(data, len)
    && |t.bounds| == |t.offsets| == |t.lengths| == RecordCount(TextOffset(data)) && |t.index| == 256
    && (forall b | 0 <= b < 256 :: t.index[b] == IndexEntry(data, b))
    && (forall i | 0 <= i < |t.bounds| ::
          t.bounds[i] == RecordBound(data, i) && t.offsets[i] == RecordOffset(data, i) && t.lengths[i] == RecordLength(data, i))
    && t.text == data[TextOffset(data) - TEXT_SHIFT..len]
  }

  /** Byte `k` of a number, the lowest one first. */
  function ByteOf(x: int, k: nat): byte
    requires 0 <= x && k < 4
  {
    match k
    case 0 => x % 0x100
    case 1 => x / 0x100 % 0x100
    case 2 => x / 0x1_0000 % 0x100
    case 3 => x / 0x100_0000 % 0x100
  }

  lemma BytesGiveNumber(x: int)
    requires 0 <= x < 0x1_0000_0000
    ensures x == ByteOf(x, 0) + ByteOf(x, 1) * 0x100 + ByteOf(x, 2) * 0x1_0000 + ByteOf(x, 3) * 0x100_0000
    ensures x < 0x100_0000 ==> ByteOf(x, 3) == 0
  {
    var y := x / 0x100;
    var z := y / 0x100;
    assert z == x / 0x1_0000 && z / 0x100 == x / 0x100_0000;
    assert x == y * 0x100 + x % 0x100 && y == z * 0x100 + y % 0x100;
  }

  /** A table that fits the file layout. */
  ghost predicate Fits(t: Table) {
    && |t.offsets| == |t.bounds| && |t.lengths| == |t.bounds| && |t.index| == 256
    && (forall i | 0 <= i < |t.bounds| :: 0 <= t.offsets[i] < 0x100_0000 && 0 <= t.lengths[i] < 0x100)
    && (forall b | 0 <= b < 256 :: 0 <= t.index[b] < 0x1_0000_0000)
    && RECORDS + 8 * |t.bounds| + TEXT_SHIFT < 0x1_0000_0000
  }

  ghost function RecordByte(t: Table, i: nat, k: nat): byte
    requires Fits(t) && i < |t.bounds| && k < 8
  {
    if k < 4 then ByteOf(t.bounds[i], 3 - k) else if k < 7 then ByteOf(t.offsets[i], k - 4) else t.lengths[i]
  }

  ghost function Serialize(t: Table): seq<byte>
    requires Fits(t)
  {
    var textoff := RECORDS + 8 * |t.bounds| + TEXT_SHIFT;
    seq(4, k requires 0 <= k < 4 => ByteOf(textoff, 3 - k))
    + seq(1024, j requires 0 <= j < 1024 => ByteOf(t.index[j / 4], j % 4))
    + seq(8 * |t.bounds|, j requires 0 <= j < 8 * |t.bounds| => RecordByte(t, j / 8, j % 8))
    + t.text
  }

  lemma SerializedAt(t: Table, slack: seq<byte>)
    requires Fits(t)
    ensures var d, len := Serialize(t) + slack, |Serialize(t)|;
            && len == RECORDS + 8 * |t.bounds| + |t.text|
            && d[RECORDS + 8 * |t.bounds|..len] == t.text
            && (forall k | 0 <= k < 4 :: d[k] == ByteOf(RECORDS + 8 * |t.bounds| + TEXT_SHIFT, 3 - k))
            && (forall b, k | 0 <= b < 256 && 0 <= k < 4 :: d[4 + b * 4 + k] == ByteOf(t.index[b], k))
            && (forall i, k | 0 <= i < |t.bounds| && 0 <= k < 8 :: d[RECORDS + i * 8 + k] == RecordByte(t, i, k))
  {
    var d := Serialize(t) + slack;
    forall b, k | 0 <= b < 256 && 0 <= k < 4
      ensures d[4 + b * 4 + k] == ByteOf(t.index[b], k)
    {
      assert (b * 4 + k) / 4 == b && (b * 4 + k) % 4 == k;
    }
    forall i, k | 0 <= i < |t.bounds| && 0 <= k < 8
      ensures d[RECORDS + i * 8 + k] == RecordByte(t, i, k)
    {
      assert (i * 8 + k) / 8 == i && (i * 8 + k) % 8 == k;
    }
  }

  lemma DecodedRecord(t: Table, d: seq<byte>, i: nat)
    requires Fits(t) && i < |t.bounds| && |d| >= RECORDS + 8 * |t.bounds|
    requires forall k | 0 <= k < 8 :: d[RECORDS + i * 8 + k] == RecordByte(t, i, k)
    ensures RecordBound(d, i) == t.bounds[i] && RecordOffset(d, i) == t.offsets[i] && RecordLength(d, i) == t.lengths[i]
  {
    BytesGiveNumber(t.bounds[i]);
    BytesGiveNumber(t.offsets[i]);
    var r := d[RECORDS + i * 8..RECORDS + i * 8 + 8];
    assert forall k | 0 <= k < 8 :: r[k] == RecordByte(t, i, k);
    assert d[RECORDS + i * 8..RECORDS + i * 8 + 4] == r[..4] && d[RECORDS + i * 8 + 4..RECORDS + i * 8 + 7] == r[4..7];
  }

  lemma DecodedIndex(t: Table, d: seq<byte>, b: nat)
    requires Fits(t) && b < 256 && |d| >= RECORDS
    requires forall k | 0 <= k < 4 :: d[4 + b * 4 + k] == ByteOf(t.index[b], k)
    ensures IndexEntry(d, b) == t.index[b]
  {
    BytesGiveNumber(t.index[b]);
    var e := d[4 + b * 4..4 + b * 4 + 4];
    assert forall k | 0 <= k < 4 :: e[k] == ByteOf(t.index[b], k);
  }

  lemma DecodedHeader(d: seq<byte>, textoff: int)
    requires |d| >= 4 && 0 <= textoff < 0x1_0000_0000
    requires forall k | 0 <= k < 4 :: d[k] == ByteOf(textoff, 3 - k)
    ensures TextOffset(d) == textoff
  {
    BytesGiveNumber(textoff);
    assert forall k | 0 <= k < 4 :: d[..4][k] == ByteOf(textoff, 3 - k);
  }

  /** A table, its number of records included, is what its serialization decodes to, in a buffer of any size. */
  lemma DecodeSerialize(t: Table, slack: seq<byte>)
    requires Fits(t)
    ensures Decodes(Serialize(t) + slack, |Serialize(t)|, t)
  {
    var d := Serialize(t) + slack;
    SerializedAt(t, slack);
    DecodedHeader(d, RECORDS + 8 * |t.bounds| + TEXT_SHIFT);
    forall i | 0 <= i < |t.bounds|
      ensures t.bounds[i] == RecordBound(d, i) && t.offsets[i] == RecordOffset(d, i) && t.lengths[i] == RecordLength(d, i)
    {
      DecodedRecord(t, d, i);
    }
    forall b | 0 <= b < 256
      ensures t.index[b] == IndexEntry(d, b)
    {
      DecodedIndex(t, d, b);
    }
  }

  /** A file decodes to one table only. */
  lemma DecodesOnce(data: seq<byte>, len: nat, t: Table, u: Table)
    requires len <= |data| && Decodes(data, len, t) && Decodes(data, len, u)
    ensures t == u
  {
    assert t.bounds == u.bounds && t.offsets == u.offsets && t.lengths == u.lengths && t.index == u.index;
  }

  // ---------- Files made from places ----------

  /** A range of addresses, by its last one, and the text that describes it. */
  datatype Place = Place(bound: uint32, text: seq<byte>)

  /** The texts, one after the other. */
  ghost function TextOf(places: seq<Place>): seq<byte> {
    if places == [] then [] else TextOf(places[..|places| - 1]) + places[|places| - 1].text
  }

  ghost function TableOf(places: seq<Place>): Table {
    var bounds := seq(|places|, i requires 0 <= i < |places| => places[i].bound);
    Table(bounds, seq(|places|, i requires 0 <= i < |places| => |TextOf(places[..i])|),
          seq(|places|, i requires 0 <= i < |places| => |places[i].text|),
          seq(256, b => LinearScan(bounds, b * 0x100_0000)), TextOf(places))
  }

  lemma {:induction false} TextAt(places: seq<Place>, i: nat)
    requires i < |places|
    ensures var off := |TextOf(places[..i])|;
            && off + |places[i].text| <= |TextOf(places)|
            && TextOf(places)[off..off + |places[i].text|] == places[i].text
  {
    var front := places[..|places| - 1];
    if i == |front| {
      assert places[..i] == front;
    } else {
      assert front[..i] == places[..i];
      TextAt(front, i);
    }
  }

  lemma TableOfPlaces(places: seq<Place>)
    requires places != [] && places[|places| - 1].bound == MAX_ADDRESS
    requires forall i, j | 0 <= i < j < |places| :: places[i].bound <= places[j].bound
    ensures WellFormed(TableOf(places))
  {
    var t := TableOf(places);
    forall i | 0 <= i < |t.bounds|
      ensures 0 <= t.offsets[i] && 0 <= t.lengths[i] && t.offsets[i] + t.lengths[i] <= |t.text|
    {
      TextAt(places, i);
    }
  }

  lemma ScanOfPlaces(places: seq<Place>, bounds: seq<uint32>, ip: uint32, i: nat)
    requires |bounds| == |places| && forall j | 0 <= j < |places| :: bounds[j] == places[j].bound
    requires i < |places| && ip <= places[i].bound && forall j | 0 <= j < i :: places[j].bound < ip
    ensures LinearScan(bounds, ip) == i
  {
    assert bounds[i] == places[i].bound;
  }

  lemma TableAnswers(places: seq<Place>, ip: uint32, i: nat)
    requires WellFormed(TableOf(places))
    requires i < |places| && ip <= places[i].bound && forall j | 0 <= j < i :: places[j].bound < ip
    ensures Lookup(TableOf(places), ip) == Describe(places[i].text)
  {
    ScanOfPlaces(places, TableOf(places).bounds, ip, i);
    TextAt(places, i);
  }

  /** Whatever a file made from places decodes to answers every address with the text of the first place that reaches it. */
  lemma FileAnswers(places: seq<Place>, slack: seq<byte>, t: Table, ip: uint32, i: nat)
    requires places != [] && places[|places| - 1].bound == 0xffff_ffff
    requires forall j, k | 0 <= j < k < |places| :: places[j].bound <= places[k].bound
    requires Fits(TableOf(places))
    requires Decodes(Serialize(TableOf(places)) + slack, |Serialize(TableOf(places))|, t)
    requires i < |places| && ip <= places[i].bound && forall j | 0 <= j < i :: places[j].bound < ip
    ensures WellFormed(t) && Lookup(t, ip) == Describe(places[i].text)
  {
    var made := TableOf(places);
    DecodeSerialize(made, slack);
    DecodesOnce(Serialize(made) + slack, |Serialize(made)|, t, made);
    TableOfPlaces(places);
    TableAnswers(places, ip, i);
  }

  // ---------- The locator ----------

  class Locator {
    var textData: seq<byte>
    var indexData1: array<uint32>
    var indexData2: array<int>
    var indexData3: array<int>
    var index: array<int>

    constructor ()
      ensures fresh(indexData1) && fresh(indexData2) && fresh(indexData3) && fresh(index)
    {
      textData := [];
      indexData1, indexData2, indexData3, index := new uint32[0], new int[0], new int[0], new int[0];
    }

    /** What the fields hold. */
    ghost function Contents(): Table
      reads this, indexData1, indexData2, indexData3, index
    {
      Table(indexData1[..], indexData2[..], indexData3[..], index[..], textData)
    }

    /**
      Fills the fields from a file, the first `len` bytes of a buffer; on a file it does not accept it gives
      up part of the way.
     */
    method Init(data: array<byte>, len: nat) returns (ok: bool)
      requires len <= data.Length
      modifies this
      ensures ok == Accepts(data[..], len)
      ensures ok ==> Decodes(data[..], len, Contents())
      ensures ok ==> fresh(indexData1) && fresh(indexData2) && fresh(indexData3) && fresh(index)
    {
      if data.Length < 4 {
        return false;
      }
      var textoff := BigEndian32(data[..4]);
      assert data[..4] == data[..][..4];
      if textoff - TEXT_SHIFT < 0 || len < textoff - TEXT_SHIFT {
        return false;
      }
      textData := data[textoff - TEXT_SHIFT..len];
      assert textData == data[..][textoff - TEXT_SHIFT..len];
      index := new int[256];
      if data.Length < RECORDS {
        return false;
      }
      ReadIndex(data);
      var nidx := Quotient(textoff - 4 - 1024 - 1024, 8);
      if nidx < 0 {
        return false;
      }
      MakeRecords(nidx);
      ReadRecords(data, nidx);
      ok := true;
    }

    /** Three fresh arrays for the records. */
    method MakeRecords(nidx: nat)
      modifies this`indexData1, this`indexData2, this`indexData3
      ensures fresh(indexData1) && fresh(indexData2) && fresh(indexData3) && indexData2 != indexData3
      ensures indexData1.Length == nidx && indexData2.Length == nidx && indexData3.Length == nidx
    {
      indexData1 := new uint32[nidx];
      indexData2 := new int[nidx];
      indexData3 := new int[nidx];
    }

    /** The first loop of Init. */
    method ReadIndex(data: array<byte>)
      requires data.Length >= RECORDS && index.Length == 256
      modifies index
      ensures data[..] == old(data[..])
      ensures forall j | 0 <= j < 256 :: index[j] == IndexEntry(data[..], j)
    {
      ghost var d := data[..];
      for i := 0 to 256
        invariant data[..] == d
        invariant forall j | 0 <= j < i :: index[j] == IndexEntry(d, j)
      {
        var off := 4 + i * 4;
        assert data[off..off + 4] == d[off..off + 4];
        index[i] := LittleEndian32(data[off..off + 4]);
      }
    }

    /** The second loop of Init. */
    method ReadRecords(data: array<byte>, nidx: nat)
      requires data.Length >= RECORDS + nidx * 8
      requires indexData1.Length == nidx && indexData2.Length == nidx && indexData3.Length == nidx
      requires indexData2 != indexData3 && index != indexData2 && index != indexData3 && index.Length == 256
      modifies indexData1, indexData2, indexData3
      ensures data[..] == old(data[..])
      ensures forall j | 0 <= j < nidx :: indexData1[j] == RecordBound(data[..], j)
      ensures forall j | 0 <= j < nidx :: indexData2[j] == RecordOffset(data[..], j)
      ensures forall j | 0 <= j < nidx :: indexData3[j] == RecordLength(data[..], j)
    {
      ghost var d := data[..];
      for i := 0 to nidx
        invariant data[..] == d
        invariant forall j | 0 <= j < i :: indexData1[j] == RecordBound(d, j)
        invariant forall j | 0 <= j < i :: indexData2[j] == RecordOffset(d, j)
        invariant forall j | 0 <= j < i :: indexData3[j] == RecordLength(d, j)
      {
        var off := 4 + 1024 + i * 8;
        var bound, offset, length := BigEndian32(data[off..off + 4]), LittleEndian24(data[off + 4..off + 7]), data[off + 7];
        assert bound == RecordBound(d, i) && offset == RecordOffset(d, i) && length == RecordLength(d, i) by {
          assert data[off..off + 4] == d[off..off + 4] && data[off + 4..off + 7] == d[off + 4..off + 7];
        }
        indexData1[i], indexData2[i], indexData3[i] := bound, offset, length;
      }
    }

    /** Binary search in a window of a sorted table; `rounds` counts the rounds of the loop. */
    method FindIndexOffset(ip: uint32, start: int, end: int) returns (idx: int, ghost rounds: nat)
      requires 0 <= start <= end < indexData1.Length
      requires forall i, j | start <= i < j <= end :: indexData1[i] <= indexData1[j]
      ensures start <= idx <= end
      ensures forall i | start <= i < idx :: indexData1[i] < ip
      ensures forall i | idx <= i < end :: ip <= indexData1[i]
      ensures rounds <= Bits(end - start)
    {
      var lo, hi := start, end;
      rounds := 0;
      while lo < hi
        invariant start <= lo <= hi <= end
        invariant forall i | start <= i < lo :: indexData1[i] < ip
        invariant forall i | hi <= i < end :: ip <= indexData1[i]
        invariant rounds + Bits(hi - lo) <= Bits(end - start)
      {
        var mid := (lo + hi) / 2;
        BitsMonotone(hi - mid - 1, (hi - lo) / 2);
        if ip > indexData1[mid] {
          lo := mid + 1;
        } else {
          hi := mid;
        }
        rounds := rounds + 1;
      }
      if indexData1[hi] >= ip {
        return hi, rounds;
      }
      return lo, rounds;
    }

    /** On a well-formed table the search picks the record the scan from the start picks, for every address. */
    method FindRecord(ip: uint32) returns (idx: int)
      requires WellFormed(Contents())
      ensures 0 <= idx < indexData1.Length == indexData2.Length == indexData3.Length
      ensures idx == LinearScan(indexData1[..], ip)
      ensures 0 <= indexData2[idx] <= indexData2[idx] + indexData3[idx] <= |textData|
    {
      WindowContains(Contents(), ip);
      var start := index[ip / 0x100_0000];
      var end := indexData1.Length - 1;
      if ip / 0x100_0000 != 0xff {
        end := index[ip / 0x100_0000 + 1];
      }
      ghost var rounds;
      idx, rounds := FindIndexOffset(ip, start, end);
      ScanInWindow(indexData1[..], ip, start, end, idx);
    }

    method FindByUint(ip: uint32) returns (info: Option<LocationInfo>)
      requires WellFormed(Contents())
      ensures info == Lookup(Contents(), ip)
    {
      var idx := FindRecord(ip);
      var off := indexData2[idx];
      info := NewLocationInfo(textData[off..off + indexData3[idx]]);
    }

    static method NewLocationInfo(str: seq<byte>) returns (info: Option<LocationInfo>)
      ensures info == Describe(str)
    {
      var fields := Split(str, TAB);
      var loc := LocationInfo([], [], [], []);
      match |fields| {
        case 4 => loc := loc.(country := fields[0], region := fields[1], city := fields[2]);
        case 5 => loc := loc.(country := fields[0], region := fields[1], city := fields[2], isp := fields[4]);
        case _ => return None;
      }
      if |loc.country| == 0 {
        loc := loc.(country := NULL);
      }
      if |loc.region| == 0 {
        loc := loc.(region := NULL);
      }
      if |loc.city| == 0 {
        loc := loc.(city := NULL);
      }
      if |loc.isp| == 0 {
        loc := loc.(isp := NULL);
      }
      info := Some(loc);
    }
  }
}
