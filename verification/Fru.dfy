/** Reading and setting FRU records through a paged EEPROM. */
module Fru {
  import opened Bytes
  import opened JsonValue
  import opened FruImage

  // ---------- what the setters change ----------

  /** The calls that set a field of a record and store the record. */
  datatype Setter =
    | SetMac(mac: seq<byte>)
    | SetUuid(uuid: seq<byte>)
    | SetSkuid(skuid: byte)
    | SetSn(sn: seq<byte>)
    | SetRfCal(offset: nat, value: byte)

  predicate WellFormed(op: Setter) {
    match op
    case SetMac(mac) => |mac| == 6
    case SetUuid(uuid) => |uuid| == 16
    case SetSkuid(_) => true
    case SetSn(sn) => |sn| <= 20
    case SetRfCal(offset, _) => offset <= 60
  }

  function Target(op: Setter): Area { if op.SetSkuid? then Product else Board }

  /** The bytes of its record that a call sets: a type byte, what marks the field, and the value. */
  predicate InField(op: Setter, i: nat) {
    match op
    case SetMac(_) => 84 <= i < 93
    case SetUuid(_) => 93 <= i < 112
    case SetSkuid(_) => 99 <= i < 103
    case SetSn(_) => 40 <= i < 61
    case SetRfCal(offset, _) => 118 <= i < 121 || i == 121 + offset
  }

  /** The record with the field set, before its checksum is computed. */
  function Edited(op: Setter, record: seq<byte>): (r: seq<byte>)
    requires WellFormed(op) && |record| == Size(Target(op))
    ensures |r| == |record|
    ensures forall k :: 0 <= k < |r| && !InField(op, k) ==> r[k] == record[k]
  {
    match op
    case SetMac(mac) => Patch(record, 84, [0x8, 0x1, 0x1] + mac)
    case SetUuid(uuid) => Patch(record, 93, [0x18, 0x2, 0x1] + uuid)
    case SetSkuid(skuid) => Patch(record, 99, [0x8, 0x20, 0x1, skuid])
    case SetSn(sn) => Patch(record, 40, [0xD4] + sn + Repeat0(20 - |sn|))
    case SetRfCal(offset, value) => Patch(record, 118, [0x3F, 0x40, 0x1])[121 + offset := value]
  }

  lemma SnIsEdited(sn: seq<byte>, record: seq<byte>, field: seq<byte>)
    requires WellFormed(SetSn(sn)) && |record| == BOARD_SIZE && field == [0xD4] + sn + Repeat0(20 - |sn|)
    ensures |field| == 21 && Edited(SetSn(sn), record) == Patch(record, 40, field)
  {
  }

  /** The chip with the records held in memory; the header is not set by any of these calls. */
  datatype State = State(img: seq<byte>, header: Header, board: seq<byte>, product: seq<byte>)

  function RecordOf(s: State, a: Area): seq<byte>
    requires a != Chassis
  {
    if a == Board then s.board else s.product
  }

  /** A successful read: the image is readable and the records in memory are those of the image. */
  predicate InStep(s: State) {
    && HeaderOf(s.img, s.header) && Placed(s.header, |s.img|) && Readable(s.img)
    && |s.board| == BOARD_SIZE && |s.product| == PRODUCT_SIZE
    && (Start(s.header, Board) > 0 ==> AreaOf(s.img, s.header, Board) == s.board)
    && (Start(s.header, Product) > 0 ==> AreaOf(s.img, s.header, Product) == s.product)
  }

  function Applied(s: State, op: Setter): State
    requires WellFormed(op) && |s.board| == BOARD_SIZE && |s.product| == PRODUCT_SIZE
  {
    var a := Target(op);
    var record := Sealed(Edited(op, RecordOf(s, a)));
    var img := Stored(s.img, Start(s.header, a), record);
    if a == Board then State(img, s.header, record, s.product) else State(img, s.header, s.board, record)
  }

  predicate Touches(op: Setter, i: nat) { InField(op, i) || i == Size(Target(op)) - 1 }

  /** The byte belongs to the field that `op` names, or is the checksum of its area. */
  predicate Named(h: Header, op: Setter, k: nat) {
    var i := k - 8 * Start(h, Target(op));
    0 <= i < Size(Target(op)) && Touches(op, i)
  }

  /** The record is stored where the header places it, or not at all; with start 0 it may be stored over the header. */
  predicate OffHeader(h: Header, chipSize: nat, op: Setter) {
    Start(h, Target(op)) > 0 || Size(Target(op)) > chipSize
  }

  predicate AllOffHeader(h: Header, chipSize: nat, ops: seq<Setter>) {
    forall op <- ops :: WellFormed(op) && OffHeader(h, chipSize, op)
  }

  /** A setter leaves the header in place exactly if it stores elsewhere, or the same eight bytes. */
  lemma HeaderAfterSetter(s: State, op: Setter)
    requires InStep(s) && WellFormed(op)
    ensures HeaderOf(Applied(s, op).img, s.header)
            <==> OffHeader(s.header, |s.img|, op) || Edited(op, RecordOf(s, Target(op)))[..HEADER_SIZE] == s.header
  {
    HeaderAfterRecord(s.img, s.header, Target(op), Edited(op, RecordOf(s, Target(op))));
  }

  lemma HeaderAfterRecord(img: seq<byte>, h: Header, a: Area, record: seq<byte>)
    requires HeaderOf(img, h) && Placed(h, |img|) && |record| == Size(a)
    ensures HeaderOf(Stored(img, Start(h, a), Sealed(record)), h)
            <==> Start(h, a) > 0 || Size(a) > |img| || record[..HEADER_SIZE] == h
  {
    var data := Sealed(record);
    assert data[..HEADER_SIZE] == record[..HEADER_SIZE];
    if Start(h, a) > 0 {
      StoredApart(img, h, a, data);
    } else if Size(a) <= |img| {
      PatchHere(img, 0, data);
      assert Patch(img, 0, data)[..HEADER_SIZE] == data[..HEADER_SIZE];
    }
  }

  /** A chip with a header that places no area, and what storing a MAC address makes of it. */
  lemma SetterOverwritesHeader()
    ensures var header: Header := [1, 0, 0, 0, 0, 0, 0, 0];
      var s := State(header + Repeat0(248), header, Repeat0(248), Repeat0(192));
      InStep(s) && !HeaderOf(Applied(s, SetMac(Repeat0(6))).img, header)
  {
    var header: Header := [1, 0, 0, 0, 0, 0, 0, 0];
    var s := State(header + Repeat0(248), header, Repeat0(248), Repeat0(192));
    assert s.img[..HEADER_SIZE] == header;
    assert forall a {:trigger Start(header, a)} :: Start(header, a) == 0;
    HeaderAfterSetter(s, SetMac(Repeat0(6)));
    FirstByteStays(SetMac(Repeat0(6)), s.board);
  }

  lemma FirstByteStays(op: Setter, record: seq<byte>)
    requires WellFormed(op) && |record| == Size(Target(op))
    ensures Edited(op, record)[..HEADER_SIZE][0] == record[0]
  {
  }

  /** A storing setter keeps the image readable. */
  lemma SetterKeepsReadable(s: State, op: Setter)
    requires InStep(s) && WellFormed(op) && OffHeader(s.header, |s.img|, op)
    ensures InStep(Applied(s, op)) && |Applied(s, op).img| == |s.img| && Applied(s, op).header == s.header
  {
    if Start(s.header, Target(op)) > 0 {
      var a := Target(op);
      var record := Sealed(Edited(op, RecordOf(s, a)));
      StoredApart(s.img, s.header, a, record);
      StoredStaysReadable(s.img, s.header, a, record);
    }
  }

  /** It changes nothing but its field and the checksum. */
  lemma SetterChangesItsField(s: State, op: Setter, k: nat)
    requires InStep(s) && WellFormed(op) && OffHeader(s.header, |s.img|, op)
    requires k < |s.img| && !Named(s.header, op, k)
    ensures Applied(s, op).img[k] == s.img[k]
  {
    var record, start := RecordOf(s, Target(op)), Start(s.header, Target(op));
    var i := k - 8 * start;
    if 0 <= i < Size(Target(op)) { FieldIsEdited(op, record, i); }
    if start > 0 { StoredKeeps(s.img, start, record, Sealed(Edited(op, record)), k, i); }
  }

  lemma StoredKeeps(img: seq<byte>, start: nat, record: seq<byte>, data: seq<byte>, k: nat, i: int)
    requires 8 * start + |record| <= |img| && img[8 * start..8 * start + |record|] == record && |data| == |record|
    requires k < |img| && i == k - 8 * start && (0 <= i < |record| ==> data[i] == record[i])
    ensures Stored(img, start, data)[k] == img[k]
  {
    StoredByte(img, start, data, k, i);
    if 0 <= i < |record| { SameByte(img, start, record, k, i); }
  }

  lemma SameByte(img: seq<byte>, start: nat, record: seq<byte>, k: nat, i: nat)
    requires 8 * start + |record| <= |img| && img[8 * start..8 * start + |record|] == record
    requires i < |record| && k == 8 * start + i
    ensures img[k] == record[i]
  {
  }

  /** Outside its field and the checksum an edited record is as it was. */
  lemma FieldIsEdited(op: Setter, record: seq<byte>, i: nat)
    requires WellFormed(op) && |record| == Size(Target(op)) && i < |record| && !Touches(op, i)
    ensures Sealed(Edited(op, record))[i] == record[i]
  {
  }

  /** devm_fru_get_skuid on a product record. */
  function Skuid(product: seq<byte>): Option<byte>
    requires |product| == PRODUCT_SIZE
  {
    if product[99] == 0x8 && product[100] == 0x20 then Some(product[102]) else None
  }

  /** devm_fru_get_rf_cal on a board record. */
  function RfCal(board: seq<byte>, offset: nat): Option<byte>
    requires |board| == BOARD_SIZE
  {
    if offset <= 60 && board[118] == 0x3F && board[119] == 0x40 then Some(board[121 + offset]) else None
  }

  /** The value of the field, as a reader of the stored area finds it. */
  predicate Reads(op: Setter, record: seq<byte>)
    requires WellFormed(op) && |record| == Size(Target(op))
  {
    match op
    case SetMac(mac) => record[84] == 0x8 && record[87..93] == mac
    case SetUuid(uuid) => record[93] > 0 && record[96..112] == uuid
    case SetSkuid(skuid) => Skuid(record) == Some(skuid)
    case SetSn(sn) => record[41..61] == sn + Repeat0(20 - |sn|)
    case SetRfCal(offset, value) => RfCal(record, offset) == Some(value)
  }

  lemma FieldReadsBack(op: Setter, record: seq<byte>)
    requires WellFormed(op) && |record| == Size(Target(op))
    ensures Reads(op, Sealed(Edited(op, record)))
  {
    var r := Sealed(Edited(op, record));
    match op
    case SetMac(mac) => assert r[87..93] == mac;
    case SetUuid(uuid) => assert r[96..112] == uuid;
    case SetSkuid(_) =>
    case SetSn(sn) => assert r[41..61] == sn + Repeat0(20 - |sn|);
    case SetRfCal(_, _) =>
  }

  /** The setters set one field: the same one, and for calibration bytes at the same offset. */
  predicate SameField(op: Setter, other: Setter) {
    match (op, other)
    case (SetMac(_), SetMac(_)) => true
    case (SetUuid(_), SetUuid(_)) => true
    case (SetSkuid(_), SetSkuid(_)) => true
    case (SetSn(_), SetSn(_)) => true
    case (SetRfCal(m, _), SetRfCal(n, _)) => m == n
    case _ => false
  }

  /** Setting another field leaves this one as it reads. */
  lemma FieldStays(op: Setter, other: Setter, record: seq<byte>)
    requires WellFormed(op) && WellFormed(other) && Target(op) == Target(other) && !SameField(op, other)
    requires |record| == Size(Target(op)) && Reads(op, record)
    ensures Reads(op, Sealed(Edited(other, record)))
  {
    var r := Sealed(Edited(other, record));
    match op
    case SetMac(mac) => assert r[87..93] == record[87..93];
    case SetUuid(uuid) => assert r[96..112] == record[96..112];
    case SetSkuid(_) =>
    case SetSn(sn) => assert r[41..61] == record[41..61];
    case SetRfCal(offset, _) =>
  }

  function AppliedAll(s: State, ops: seq<Setter>): State
    requires (forall op <- ops :: WellFormed(op)) && |s.board| == BOARD_SIZE && |s.product| == PRODUCT_SIZE
    decreases |ops|
  {
    if ops == [] then s else AppliedAll(Applied(s, ops[0]), ops[1..])
  }

  /** So does any run of them: a byte that none of the setters names is the same afterwards. */
  lemma {:induction false} RunKeepsReadable(s: State, ops: seq<Setter>)
    requires InStep(s) && AllOffHeader(s.header, |s.img|, ops)
    ensures InStep(AppliedAll(s, ops)) && |AppliedAll(s, ops).img| == |s.img|
    decreases |ops|
  {
    if ops != [] {
      SetterKeepsReadable(s, ops[0]);
      RunKeepsReadable(Applied(s, ops[0]), ops[1..]);
    }
  }

  lemma {:induction false} RunChangesItsFields(s: State, ops: seq<Setter>, k: nat)
    requires InStep(s) && AllOffHeader(s.header, |s.img|, ops)
    requires k < |s.img| && forall op <- ops :: !Named(s.header, op, k)
    ensures |AppliedAll(s, ops).img| == |s.img| && AppliedAll(s, ops).img[k] == s.img[k]
    decreases |ops|
  {
    if ops != [] {
      SetterKeepsReadable(s, ops[0]);
      SetterChangesItsField(s, ops[0], k);
      RunChangesItsFields(Applied(s, ops[0]), ops[1..], k);
    }
  }

  lemma {:induction false} RunLeavesField(s: State, ops: seq<Setter>, op: Setter)
    requires InStep(s) && AllOffHeader(s.header, |s.img|, ops) && forall o <- ops :: !SameField(op, o)
    requires WellFormed(op) && Reads(op, RecordOf(s, Target(op)))
    ensures InStep(AppliedAll(s, ops)) && Reads(op, RecordOf(AppliedAll(s, ops), Target(op)))
    decreases |ops|
  {
    if ops != [] {
      SetterKeepsReadable(s, ops[0]);
      if Target(op) == Target(ops[0]) { FieldStays(op, ops[0], RecordOf(s, Target(op))); }
      RunLeavesField(Applied(s, ops[0]), ops[1..], op);
    }
  }

  /** What a run leaves of the field that `op` set: its value, in the record and, where that is placed, in the chip. */
  predicate Kept(t: State, h: Header, op: Setter) {
    && WellFormed(op) && InStep(t) && t.header == h && Reads(op, RecordOf(t, Target(op)))
    && (Start(h, Target(op)) > 0 ==> AreaOf(t.img, h, Target(op)) == RecordOf(t, Target(op)))
  }

  /** No later setter of the run sets the same field. */
  predicate LastOfField(ops: seq<Setter>, i: nat)
    requires i < |ops|
  {
    forall j :: i < j < |ops| ==> !SameField(ops[i], ops[j])
  }

  lemma LastInTail(ops: seq<Setter>, i: nat)
    requires i < |ops| && LastOfField(ops, i)
    ensures i > 0 ==> LastOfField(ops[1..], i - 1)
    ensures i == 0 ==> forall o <- ops[1..] :: !SameField(ops[0], o)
  {
    var rest := ops[1..];
    assert forall j :: 0 <= j < |rest| ==> rest[j] == ops[j + 1];
  }

  /** After any run the last setter of a field is the one whose value is read, from the record and from the chip. */
  lemma {:induction false} RunIsReadBack(s: State, ops: seq<Setter>, i: nat)
    requires InStep(s) && AllOffHeader(s.header, |s.img|, ops)
    requires i < |ops| && LastOfField(ops, i)
    ensures Kept(AppliedAll(s, ops), s.header, ops[i])
    decreases |ops|
  {
    SetterKeepsReadable(s, ops[0]);
    LastInTail(ops, i);
    if i == 0 {
      FirstIsReadBack(s, ops);
    } else {
      RunIsReadBack(Applied(s, ops[0]), ops[1..], i - 1);
    }
  }

  lemma {:induction false} FirstIsReadBack(s: State, ops: seq<Setter>)
    requires InStep(s) && AllOffHeader(s.header, |s.img|, ops)
    requires ops != [] && forall o <- ops[1..] :: !SameField(ops[0], o)
    ensures Kept(AppliedAll(s, ops), s.header, ops[0])
  {
    SetterKeepsReadable(s, ops[0]);
    FieldReadsBack(ops[0], RecordOf(s, Target(ops[0])));
    RunLeavesField(Applied(s, ops[0]), ops[1..], ops[0]);
    HeaderStays(s, ops);
  }

  lemma {:induction false} HeaderStays(s: State, ops: seq<Setter>)
    requires (forall op <- ops :: WellFormed(op)) && |s.board| == BOARD_SIZE && |s.product| == PRODUCT_SIZE
    ensures AppliedAll(s, ops).header == s.header
    decreases |ops|
  {
    if ops != [] { HeaderStays(Applied(s, ops[0]), ops[1..]); }
  }

  // ---------- the chip and the records ----------

  class FruChip {
    /** The EEPROM answers at `devId` and, for each further page of 256 bytes, at the next address. */
    const devId: nat
    const chipSize: nat
    const cells: array2<byte>
    const header: array<byte>
    const chassis: array<byte>
    const board: array<byte>
    const product: array<byte>

    predicate Valid() {
      && cells.Length1 == 256 && 256 * (cells.Length0 - devId) >= chipSize
      && header.Length == HEADER_SIZE && chassis.Length == CHASSIS_SIZE
      && board.Length == BOARD_SIZE && product.Length == PRODUCT_SIZE
      && header != chassis && header != board && header != product
      && chassis != board && chassis != product && board != product
    }

    /** The byte at a linear address. */
    ghost function Cell(a: nat): byte
      requires Valid() && a < chipSize
      reads cells
    {
      cells[devId + a / 256, a % 256]
    }

    ghost function Image(): (img: seq<byte>)
      requires Valid()
      reads cells
      ensures |img| == chipSize && forall a :: 0 <= a < chipSize ==> img[a] == Cell(a)
    {
      seq(chipSize, a requires 0 <= a < chipSize reads cells => Cell(a))
    }

    /** i2c_read_data of one byte. */
    method ReadByte(offset: nat) returns (value: byte)
      requires Valid() && offset < chipSize
      ensures value == Image()[offset]
    {
      var dev, inPage := devId + offset / 256, offset % 256;
      value := cells[dev, inPage];
    }

    /** i2c_write_buffer of one byte. */
    method WriteByte(offset: nat, value: byte)
      requires Valid() && offset < chipSize
      modifies cells
      ensures Image() == old(Image())[offset := value]
    {
      var dev, inPage := devId + offset / 256, offset % 256;
      cells[dev, inPage] := value;
    }

    /** devm_load_area_data. */
    method LoadArea(start: nat, data: array<byte>) returns (ok: bool)
      requires Valid()
      modifies data
      ensures ok <==> 8 * start + data.Length <= chipSize
      ensures data[..] == if ok then Image()[8 * start..8 * start + data.Length] else old(data[..])
    {
      var at := start * 8;
      if at + data.Length > chipSize {
        return false;
      }
      ghost var img := Image();
      for i := 0 to data.Length
        invariant data[..i] == img[at..at + i]
        invariant Image() == img
      {
        data[i] := ReadByte(at + i);
        assert img[at..at + i + 1] == img[at..at + i] + [img[at + i]];
      }
      assert data[..] == data[..data.Length];
      ok := true;
    }

    /** devm_store_area_data. */
    method StoreArea(start: nat, data: array<byte>) returns (ok: bool)
      requires Valid()
      modifies cells
      ensures ok <==> 8 * start + data.Length <= chipSize
      ensures Image() == Stored(old(Image()), start, data[..])
    {
      var at := start * 8;
      if at + data.Length > chipSize {
        return false;
      }
      ghost var img := Image();
      for i := 0 to data.Length
        invariant Image() == Patch(img, at, data[..i])
        invariant data[..] == old(data[..])
      {
        WriteByte(at + i, data[i]);
        PatchGrows(img, at, data[..], i);
        assert data[..][..i] == data[..i] && data[..][..i + 1] == data[..i + 1];
      }
      assert data[..data.Length] == data[..];
      ok := true;
    }

    method Clear(data: array<byte>)
      modifies data
      ensures data[..] == Repeat0(data.Length)
    {
      for i := 0 to data.Length
        invariant forall k :: 0 <= k < i ==> data[k] == 0
      {
        data[i] := 0;
      }
    }

    /** The checks of devm_read_fru_info on one area. */
    method ReadArea(start: nat, data: array<byte>, ghost h: Header, ghost a: Area) returns (ok: bool)
      requires Valid() && data.Length == Size(a) && start == Start(h, a)
      modifies data
      ensures ok <==> AreaReads(Image(), h, a)
      ensures data[..] == if ok && start > 0 then AreaOf(Image(), h, a) else Repeat0(data.Length)
    {
      Clear(data);
      ok := true;
      if start > 0 {
        ok := LoadChecked(start, data);
      }
    }

    /** An area that is there: it is loaded, and its checksum compared. */
    method LoadChecked(start: nat, data: array<byte>) returns (ok: bool)
      requires Valid() && data.Length > 0 && data[..] == Repeat0(data.Length)
      modifies data
      ensures ok <==> 8 * start + data.Length <= chipSize && Checked(Image()[8 * start..8 * start + data.Length])
      ensures data[..] == if ok then Image()[8 * start..8 * start + data.Length] else Repeat0(data.Length)
    {
      ok := LoadArea(start, data);
      if ok {
        ok := KeepIfChecked(data);
      }
    }

    /** An area with another checksum is cleared. */
    method KeepIfChecked(data: array<byte>) returns (ok: bool)
      requires data.Length > 0
      modifies data
      ensures ok <==> Checked(old(data[..]))
      ensures data[..] == if ok then old(data[..]) else Repeat0(data.Length)
    {
      var last := data.Length - 1;
      var sum := Checksum(data, last);
      assert data[..][..last] == data[..last];
      ok := data[last] == sum;
      if !ok {
        Clear(data);
      }
    }

    /** What a successful read leaves in a record. */
    ghost predicate Holds(record: array<byte>, a: Area)
      requires Valid() && Readable(Image()) && header[..] == Image()[..HEADER_SIZE]
      reads cells, header, record
    {
      record[..] == if Start(header[..], a) > 0 then AreaOf(Image(), header[..], a) else Repeat0(Size(a))
    }

    /** devm_read_fru_info. */
    method ReadFruInfo() returns (ok: bool)
      requires Valid()
      modifies header, chassis, board, product
      ensures ok <==> Readable(Image())
      ensures ok ==> header[..] == Image()[..HEADER_SIZE] && Holds(chassis, Chassis) && Holds(board, Board) && Holds(product, Product)
    {
      ok := LoadArea(0, header);
      if !ok {
        return;
      }
      ghost var img, h := Image(), header[..];
      assert Readable(img) <==> AreaReads(img, h, Chassis) && AreaReads(img, h, Board) && AreaReads(img, h, Product);
      var chassisStart, boardStart, productStart := header[2], header[3], header[4];
      ok := ReadArea(chassisStart, chassis, h, Chassis);
      if ok {
        ok := ReadArea(boardStart, board, h, Board);
        if ok {
          ok := ReadArea(productStart, product, h, Product);
        }
      }
    }

    /** The checksum is stored in the record, and the record in the chip. */
    method SealAndStore(start: nat, area: array<byte>) returns (ok: bool)
      requires Valid() && area.Length > 0
      modifies area, cells
      ensures area[..] == Sealed(old(area[..])) && Image() == Stored(old(Image()), start, area[..])
      ensures ok <==> 8 * start + area.Length <= chipSize
    {
      Seal(area);
      ok := StoreArea(start, area);
    }

    method Seal(area: array<byte>)
      requires area.Length > 0
      modifies area
      ensures area[..] == Sealed(old(area[..]))
    {
      var n := area.Length - 1;
      var sum := Checksum(area, n);
      area[n] := sum;
      assert old(area[..])[..n] == old(area[..n]);
    }

    /** An area is stored if it has a format version. */
    method StoreIfPresent(start: nat, area: array<byte>)
      requires Valid() && area.Length > 0
      modifies area, cells
      ensures Image() == StoredIf(old(Image()), start, old(area[..]))
      ensures area[..] == if old(area[0]) > 0 then Sealed(old(area[..])) else old(area[..])
    {
      if area[0] > 0 {
        var ok := SealAndStore(start, area);
      }
    }

    /** The stores at the end of devm_fru_load_json. */
    method StoreAll(common: array<byte>, chassisInfo: array<byte>, boardInfo: array<byte>, productInfo: array<byte>)
      requires Valid() && common.Length == HEADER_SIZE && chassisInfo.Length == CHASSIS_SIZE
      requires boardInfo.Length == BOARD_SIZE && productInfo.Length == PRODUCT_SIZE
      modifies cells, common, chassisInfo, boardInfo, productInfo
      ensures Image() == StoredAll(old(Image()), old(common[..]), old(chassisInfo[..]), old(boardInfo[..]), old(productInfo[..]))
    {
      ghost var h: Header := common[..];
      StoreIfPresent(0, common);
      var chassisStart, boardStart, productStart := common[2], common[3], common[4];
      assert chassisStart == h[2] && boardStart == h[3] && productStart == h[4];
      StoreIfPresent(chassisStart, chassisInfo);
      StoreIfPresent(boardStart, boardInfo);
      StoreIfPresent(productStart, productInfo);
    }

    /** memcpy of `bytes` into a record. */
    method CopyInto(record: array<byte>, at: nat, bytes: seq<byte>)
      requires at + |bytes| <= record.Length
      modifies record
      ensures record[..] == Patch(old(record[..]), at, bytes)
    {
      ghost var was := record[..];
      for i := 0 to |bytes|
        invariant record[..] == Patch(was, at, bytes[..i])
      {
        record[at + i] := bytes[i];
        PatchGrows(was, at, bytes, i);
      }
      assert bytes[..|bytes|] == bytes;
    }

    /** devm_fru_set_mac. */
    method SetMacAddress(store: bool, mac: seq<byte>) returns (ok: bool)
      requires Valid() && WellFormed(SetMac(mac))
      modifies board, cells
      ensures board[..] == Sealed(Edited(SetMac(mac), old(board[..])))
      ensures Image() == if store then Stored(old(Image()), header[3], board[..]) else old(Image())
      ensures ok <==> store ==> 8 * header[3] + BOARD_SIZE <= chipSize
    {
      CopyInto(board, 84, [0x8, 0x1, 0x1] + mac);
      Seal(board);
      ok := true;
      if store {
        ok := StoreArea(header[3], board);
      }
    }

    /** devm_fru_set_uuid. */
    method SetUuidBytes(store: bool, uuid: seq<byte>) returns (ok: bool)
      requires Valid() && WellFormed(SetUuid(uuid))
      modifies board, cells
      ensures board[..] == Sealed(Edited(SetUuid(uuid), old(board[..])))
      ensures Image() == if store then Stored(old(Image()), header[3], board[..]) else old(Image())
      ensures ok <==> store ==> 8 * header[3] + BOARD_SIZE <= chipSize
    {
      CopyInto(board, 93, [0x18, 0x2, 0x1] + uuid);
      Seal(board);
      ok := true;
      if store {
        ok := StoreArea(header[3], board);
      }
    }

    /** devm_fru_set_skuid. */
    method SetSkuidByte(store: bool, skuid: byte) returns (ok: bool)
      requires Valid()
      modifies product, cells
      ensures product[..] == Sealed(Edited(SetSkuid(skuid), old(product[..])))
      ensures Image() == if store then Stored(old(Image()), header[4], product[..]) else old(Image())
      ensures ok <==> store ==> 8 * header[4] + PRODUCT_SIZE <= chipSize
    {
      CopyInto(product, 99, [0x8, 0x20, 0x1, skuid]);
      Seal(product);
      ok := true;
      if store {
        ok := StoreArea(header[4], product);
      }
    }

    /** devm_fru_get_skuid. */
    method GetSkuid() returns (skuid: Option<byte>)
      requires Valid()
      ensures skuid == Skuid(product[..])
    {
      if product[99] == 0x8 && product[100] == 0x20 {
        return Some(product[102]);
      }
      return None;
    }

    /** devm_fru_get_rf_cal. */
    method GetRfCal(offset: byte) returns (value: Option<byte>)
      requires Valid()
      ensures value == RfCal(board[..], offset)
    {
      if offset > 60 {
        return None;
      }
      if board[118] == 0x3F && board[119] == 0x40 {
        return Some(board[121 + offset]);
      }
      return None;
    }

    /** devm_fru_set_sn: the record gets its checksum only when it is stored. */
    method SetSerialNumber(store: bool, sn: seq<byte>) returns (ok: bool)
      requires Valid() && WellFormed(SetSn(sn))
      modifies board, cells
      ensures board[..] == if store then Sealed(Edited(SetSn(sn), old(board[..]))) else Edited(SetSn(sn), old(board[..]))
      ensures Image() == if store then Stored(old(Image()), header[3], board[..]) else old(Image())
      ensures ok <==> store ==> 8 * header[3] + BOARD_SIZE <= chipSize
    {
      var field := [0xD4] + sn + Repeat0(20 - |sn|);
      SnIsEdited(sn, board[..], field);
      CopyInto(board, 40, field);
      ok := true;
      if store {
        Seal(board);
        ok := StoreArea(header[3], board);
      }
    }

    /** devm_fru_set_rf_cal: an offset over 60 changes nothing. */
    method SetRfCalByte(store: bool, offset: byte, value: byte) returns (ok: bool)
      requires Valid()
      modifies board, cells
      ensures offset > 60 ==> !ok && board[..] == old(board[..]) && Image() == old(Image())
      ensures offset <= 60 ==>
                && board[..] == Sealed(Edited(SetRfCal(offset, value), old(board[..])))
                && Image() == (if store then Stored(old(Image()), header[3], board[..]) else old(Image()))
                && (ok <==> store ==> 8 * header[3] + BOARD_SIZE <= chipSize)
    {
      if offset > 60 {
        return false;
      }
      CopyInto(board, 118, [0x3F, 0x40, 0x1]);
      board[121 + offset] := value;
      Seal(board);
      ok := true;
      if store {
        ok := StoreArea(header[3], board);
      }
    }
  }
}
