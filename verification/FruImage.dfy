/** The layout of a FRU image: checksummed areas that a common header places in an EEPROM. */
module FruImage {
  import opened Bytes

  // ---------- bytes in place ----------

  /** `img` with `data` written from `at` on. */
  function Patch(img: seq<byte>, at: nat, data: seq<byte>): (r: seq<byte>)
    requires at + |data| <= |img|
    ensures |r| == |img|
  {
    img[..at] + data + img[at + |data|..]
  }

  lemma PatchAt(img: seq<byte>, at: nat, data: seq<byte>, k: nat)
    requires at + |data| <= |img| && k < |img|
    ensures Patch(img, at, data)[k] == if at <= k < at + |data| then data[k - at] else img[k]
  {
  }

  /** What stands elsewhere is not touched. */
  lemma PatchElsewhere(img: seq<byte>, at: nat, data: seq<byte>, from: nat, to: nat)
    requires at + |data| <= |img| && from <= to <= |img| && (to <= at || at + |data| <= from)
    ensures Patch(img, at, data)[from..to] == img[from..to]
  {
    forall k | from <= k < to ensures Patch(img, at, data)[k] == img[k] { PatchAt(img, at, data, k); }
  }

  lemma PatchHere(img: seq<byte>, at: nat, data: seq<byte>)
    requires at + |data| <= |img|
    ensures Patch(img, at, data)[at..at + |data|] == data
  {
  }

  /** One byte more. */
  lemma PatchGrows(img: seq<byte>, at: nat, data: seq<byte>, i: nat)
    requires at + |data| <= |img| && i < |data|
    ensures Patch(img, at, data[..i + 1]) == Patch(img, at, data[..i])[at + i := data[i]]
  {
    var more, grown := Patch(img, at, data[..i + 1]), Patch(img, at, data[..i])[at + i := data[i]];
    forall k | 0 <= k < |img| ensures more[k] == grown[k] {
      PatchAt(img, at, data[..i + 1], k);
      PatchAt(img, at, data[..i], k);
    }
  }

  // ---------- checksums ----------

  function Total(s: seq<byte>): nat {
    if s == [] then 0 else Total(s[..|s| - 1]) + s[|s| - 1]
  }

  /** devm_get_area_checksum: the sum of the bytes in eight bits. */
  function Sum(s: seq<byte>): byte { Total(s) % 256 }

  method Checksum(data: array<byte>, length: nat) returns (sum: byte)
    requires length <= data.Length
    ensures sum == Sum(data[..length])
  {
    sum := 0;
    for i := 0 to length
      invariant sum == Sum(data[..i])
    {
      assert data[..i + 1][..i] == data[..i];
      ModShift(Total(data[..i]), data[i]);
      sum := (sum + data[i]) % 256;
    }
  }

  lemma ModShift(x: int, d: int)
    ensures (x % 256 + d) % 256 == (x + d) % 256
  {
    assert x == 256 * (x / 256) + x % 256;
    var y := x % 256 + d;
    assert x + d == 256 * (x / 256) + y;
  }

  /** The last byte of an area is the checksum of the others. */
  predicate Checked(area: seq<byte>) {
    area != [] && area[|area| - 1] == Sum(area[..|area| - 1])
  }

  /** The area with its checksum stored. */
  function Sealed(area: seq<byte>): (r: seq<byte>)
    requires area != []
    ensures |r| == |area| && Checked(r) && forall k :: 0 <= k < |area| - 1 ==> r[k] == area[k]
  {
    var body := area[..|area| - 1];
    assert (body + [Sum(body)])[..|body|] == body;
    body + [Sum(body)]
  }

  /** Changing one byte changes the total by the same amount. */
  lemma {:induction false} TotalWithOneByte(s: seq<byte>, i: nat, b: byte)
    requires i < |s|
    ensures Total(s[i := b]) == Total(s) + b - s[i]
  {
    var n := |s| - 1;
    var t := s[i := b];
    if i < n {
      TotalWithOneByte(s[..n], i, b);
      assert t[..n] == s[..n][i := b];
    } else {
      assert t[..n] == s[..n];
    }
  }

  /** Any change of a single byte of a checked area, checksum included, is noticed. */
  lemma OneByteIsNoticed(area: seq<byte>, i: nat, b: byte)
    requires Checked(area) && i < |area| && b != area[i]
    ensures !Checked(area[i := b])
  {
    var n := |area| - 1;
    var t := area[i := b];
    if i < n {
      TotalWithOneByte(area[..n], i, b);
      assert t[..n] == area[..n][i := b];
      Differ(Total(area[..n]), b - area[i]);
    } else {
      assert t[..n] == area[..n];
    }
  }

  lemma Differ(x: nat, d: int)
    requires d != 0 && -256 < d < 256 && x + d >= 0
    ensures (x + d) % 256 != x % 256
  {
    assert x + d == 256 * ((x + d) / 256) + (x + d) % 256;
    assert x == 256 * (x / 256) + x % 256;
  }

  // ---------- the areas ----------

  const HEADER_SIZE: nat := 8
  const CHASSIS_SIZE: nat := 64
  const BOARD_SIZE: nat := 248
  const PRODUCT_SIZE: nat := 192

  type Header = h: seq<byte> | |h| == 8 witness [0, 0, 0, 0, 0, 0, 0, 0]

  datatype Area = Chassis | Board | Product

  function Size(a: Area): (n: nat)
    ensures n > 0
  {
    match a case Chassis => CHASSIS_SIZE case Board => BOARD_SIZE case Product => PRODUCT_SIZE
  }

  /** The header's start of the area, counted in 8 bytes; 0 for an area that is not there. */
  function Start(h: Header, a: Area): nat {
    match a case Chassis => h[2] case Board => h[3] case Product => h[4]
  }

  predicate Fits(h: Header, a: Area, chipSize: nat) { 8 * Start(h, a) + Size(a) <= chipSize }

  /** The bytes of an area in an image. */
  function AreaOf(img: seq<byte>, h: Header, a: Area): (r: seq<byte>)
    requires Fits(h, a, |img|)
    ensures |r| == Size(a)
  {
    img[8 * Start(h, a)..8 * Start(h, a) + Size(a)]
  }

  predicate HeaderOf(img: seq<byte>, h: Header) { |img| >= HEADER_SIZE && img[..HEADER_SIZE] == h }

  /** devm_read_fru_info accepts the area: it is not there, or inside the chip with the right checksum. */
  predicate AreaReads(img: seq<byte>, h: Header, a: Area) {
    Start(h, a) > 0 ==> Fits(h, a, |img|) && Checked(AreaOf(img, h, a))
  }

  /** devm_read_fru_info succeeds. */
  predicate Readable(img: seq<byte>) {
    |img| >= HEADER_SIZE
    && var h: Header := img[..HEADER_SIZE];
       AreaReads(img, h, Chassis) && AreaReads(img, h, Board) && AreaReads(img, h, Product)
  }

  /** What the header places in the chip lies inside it and does not overlap. */
  predicate Placed(h: Header, chipSize: nat) {
    && chipSize >= HEADER_SIZE
    && (forall a {:trigger Start(h, a)} :: Start(h, a) > 0 ==> Fits(h, a, chipSize))
    && (forall a, b {:trigger Start(h, a), Start(h, b)} :: a != b && Start(h, a) > 0 && Start(h, b) > 0 ==> Apart(h, a, b))
  }

  predicate Apart(h: Header, a: Area, b: Area) {
    8 * Start(h, a) + Size(a) <= 8 * Start(h, b) || 8 * Start(h, b) + Size(b) <= 8 * Start(h, a)
  }

  // ---------- storing an area ----------

  /** devm_store_area_data: an area that does not fit is not stored. */
  function Stored(img: seq<byte>, start: nat, data: seq<byte>): (r: seq<byte>)
    ensures |r| == |img|
  {
    if 8 * start + |data| <= |img| then Patch(img, 8 * start, data) else img
  }

  lemma StoredByte(img: seq<byte>, start: nat, data: seq<byte>, k: nat, i: int)
    requires 8 * start + |data| <= |img| && k < |img| && i == k - 8 * start
    ensures Stored(img, start, data)[k] == if 0 <= i < |data| then data[i] else img[k]
  {
    PatchAt(img, 8 * start, data, k);
  }

  /** Storing one placed area leaves the header and the other areas as they were. */
  lemma StoredApart(img: seq<byte>, h: Header, a: Area, data: seq<byte>)
    requires HeaderOf(img, h) && Placed(h, |img|) && Start(h, a) > 0 && |data| == Size(a)
    ensures var r := Stored(img, Start(h, a), data);
      && HeaderOf(r, h) && AreaOf(r, h, a) == data
      && forall b {:trigger Start(h, b)} :: b != a && Start(h, b) > 0 ==> AreaOf(r, h, b) == AreaOf(img, h, b)
  {
    var at := 8 * Start(h, a);
    PatchElsewhere(img, at, data, 0, HEADER_SIZE);
    PatchHere(img, at, data);
    forall b {:trigger Start(h, b)} | b != a && Start(h, b) > 0
      ensures AreaOf(Stored(img, Start(h, a), data), h, b) == AreaOf(img, h, b)
    {
      PatchElsewhere(img, at, data, 8 * Start(h, b), 8 * Start(h, b) + Size(b));
    }
  }

  /** Storing a checked area in a readable image leaves it readable. */
  lemma StoredStaysReadable(img: seq<byte>, h: Header, a: Area, data: seq<byte>)
    requires HeaderOf(img, h) && Placed(h, |img|) && Readable(img)
    requires Start(h, a) > 0 && |data| == Size(a) && Checked(data)
    ensures Readable(Stored(img, Start(h, a), data))
  {
    var r := Stored(img, Start(h, a), data);
    StoredApart(img, h, a, data);
    forall b ensures AreaReads(r, h, b) {
      assert AreaReads(img, h, b) by { if b == Chassis {} else if b == Board {} else { assert b == Product; } }
      assert Start(h, b) >= 0;
    }
  }

  // ---------- storing all areas ----------

  /** The stores at the end of devm_fru_load_json: an area is stored if its format version is not 0. */
  function StoredIf(img: seq<byte>, start: nat, area: seq<byte>): (r: seq<byte>)
    requires area != []
    ensures |r| == |img|
  {
    if area[0] > 0 then Stored(img, start, Sealed(area)) else img
  }

  function StoredAll(img: seq<byte>, header: Header, chassis: seq<byte>, board: seq<byte>, product: seq<byte>): (r: seq<byte>)
    requires |chassis| == CHASSIS_SIZE && |board| == BOARD_SIZE && |product| == PRODUCT_SIZE
    ensures |r| == |img|
  {
    var i1 := StoredIf(img, 0, header);
    var i2 := StoredIf(i1, Start(header, Chassis), chassis);
    var i3 := StoredIf(i2, Start(header, Board), board);
    StoredIf(i3, Start(header, Product), product)
  }

  /** The header is stored with its checksum, which does not move the areas. */
  function SealedHeader(header: Header): Header { Sealed(header) }

  lemma HeaderIsStored(img: seq<byte>, header: Header)
    requires |img| >= HEADER_SIZE && header[0] > 0
    ensures HeaderOf(StoredIf(img, 0, header), SealedHeader(header))
    ensures forall a {:trigger Start(header, a)} :: Start(SealedHeader(header), a) == Start(header, a)
  {
    PatchHere(img, 0, Sealed(header));
  }

  /** The area has a format version but no place, so it is stored over the header. */
  predicate Overlays(h: Header, a: Area, area: seq<byte>, chipSize: nat)
    requires area != []
  {
    Start(h, a) == 0 && area[0] > 0 && |area| <= chipSize
  }

  /** The area is stored where the header places it, if it does, and nowhere else. */
  predicate InPlace(h: Header, a: Area, area: seq<byte>, chipSize: nat)
    requires area != []
  {
    (Start(h, a) > 0 ==> area[0] > 0) && !Overlays(h, a, area, chipSize)
  }

  /** Areas that the header places are read back as they were stored, and the image is readable. */
  lemma StoredIsReadable(img: seq<byte>, header: Header, chassis: seq<byte>, board: seq<byte>, product: seq<byte>)
    requires |chassis| == CHASSIS_SIZE && |board| == BOARD_SIZE && |product| == PRODUCT_SIZE
    requires header[0] > 0 && Placed(header, |img|)
    requires InPlace(header, Chassis, chassis, |img|)
    requires InPlace(header, Board, board, |img|) && InPlace(header, Product, product, |img|)
    ensures var r, h := StoredAll(img, header, chassis, board, product), SealedHeader(header);
      && Readable(r) && HeaderOf(r, h)
      && (Start(h, Chassis) > 0 ==> AreaOf(r, h, Chassis) == Sealed(chassis))
      && (Start(h, Board) > 0 ==> AreaOf(r, h, Board) == Sealed(board))
      && (Start(h, Product) > 0 ==> AreaOf(r, h, Product) == Sealed(product))
  {
    var h := SealedHeader(header);
    HeaderIsStored(img, header);
    PlacedAlike(header, h, |img|);
    StoredInPlace(img, header, chassis, board, product, h);
  }

  // ---------- which store a byte is left by ----------

  /** The store of the area at `start` writes byte `k`. */
  predicate Writes(start: nat, area: seq<byte>, chipSize: nat, k: nat) {
    area != [] && area[0] > 0 && 8 * start + |area| <= chipSize && 8 * start <= k < 8 * start + |area|
  }

  /** Byte `k` after that store; `below` is what was there. */
  function Over(start: nat, area: seq<byte>, chipSize: nat, k: nat, below: byte): byte {
    if Writes(start, area, chipSize, k) then Sealed(area)[k - 8 * start] else below
  }

  lemma StoreIsOver(img: seq<byte>, start: nat, area: seq<byte>, k: nat)
    requires area != [] && k < |img|
    ensures StoredIf(img, start, area)[k] == Over(start, area, |img|, k, img[k])
  {
    if area[0] > 0 && 8 * start + |area| <= |img| { StoredByte(img, start, Sealed(area), k, k - 8 * start); }
  }

  /** Each byte is left by the last store that covers it, whatever the header says of the places. */
  lemma LastStoreWins(img: seq<byte>, header: Header, chassis: seq<byte>, board: seq<byte>, product: seq<byte>, h: Header, k: nat)
    requires |chassis| == CHASSIS_SIZE && |board| == BOARD_SIZE && |product| == PRODUCT_SIZE
    requires h == SealedHeader(header) && k < |img|
    ensures StoredAll(img, header, chassis, board, product)[k]
            == Over(Start(h, Product), product, |img|, k,
                 Over(Start(h, Board), board, |img|, k,
                   Over(Start(h, Chassis), chassis, |img|, k, Over(0, header, |img|, k, img[k]))))
  {
    var i1 := StoredIf(img, 0, header);
    var i2 := StoredIf(i1, Start(h, Chassis), chassis);
    var i3 := StoredIf(i2, Start(h, Board), board);
    StoreIsOver(img, 0, header, k);
    StoreIsOver(i1, Start(h, Chassis), chassis, k);
    StoreIsOver(i2, Start(h, Board), board, k);
    StoreIsOver(i3, Start(h, Product), product, k);
    assert StoredAll(img, header, chassis, board, product) == StoredIf(i3, Start(h, Product), product);
  }

  /** What an unplaced area writes at the front of the chip. */
  function Overlay(h: Header, a: Area, area: seq<byte>, chipSize: nat): (over: seq<byte>)
    requires area != []
  {
    if Overlays(h, a, area, chipSize) then Sealed(area) else []
  }

  /** The bytes `data` that stand at `at`, with `over` written at the front of the chip. */
  function Covered(over: seq<byte>, at: nat, data: seq<byte>): (r: seq<byte>)
    ensures |r| == |data|
  {
    if |over| <= at then data
    else if |over| < at + |data| then over[at..] + data[|over| - at..]
    else over[at..at + |data|]
  }

  lemma CoveredAt(over: seq<byte>, at: nat, data: seq<byte>, i: nat, k: nat)
    requires i < |data| && k == at + i
    ensures Covered(over, at, data)[i] == if k < |over| then over[k] else data[i]
  {
  }

  /** The store of an area itself. */
  function Own(area: seq<byte>, below: seq<byte>): (r: seq<byte>)
    requires area != [] && |below| == |area|
    ensures |r| == |area|
  {
    if area[0] > 0 then Sealed(area) else below
  }

  /** Byte `i` of a placed area: stores of the other areas reach it only from the front of the chip. */
  lemma OverIsCovered(h: Header, a: Area, b: Area, other: seq<byte>, chipSize: nat, data: seq<byte>, i: nat, k: nat)
    requires Placed(h, chipSize) && a != b && Start(h, a) > 0 && |data| == Size(a) && |other| == Size(b)
    requires i < |data| && k == 8 * Start(h, a) + i
    ensures Over(Start(h, b), other, chipSize, k, data[i])
            == Covered(Overlay(h, b, other, chipSize), 8 * Start(h, a), data)[i]
  {
    CoveredAt(Overlay(h, b, other, chipSize), 8 * Start(h, a), data, i, k);
    if Start(h, b) > 0 { assert Apart(h, a, b); }
  }

  /** The store of the area itself. */
  lemma OverIsOwn(h: Header, a: Area, area: seq<byte>, chipSize: nat, data: seq<byte>, i: nat, k: nat)
    requires Placed(h, chipSize) && Start(h, a) > 0 && |area| == |data| == Size(a)
    requires i < |data| && k == 8 * Start(h, a) + i
    ensures Over(Start(h, a), area, chipSize, k, data[i]) == Own(area, data)[i]
  {
  }

  /** Byte `i` of a placed area after all stores. */
  lemma LastStoreInArea(img: seq<byte>, header: Header, chassis: seq<byte>, board: seq<byte>, product: seq<byte>, h: Header, a: Area,
                        i: nat, k: nat)
    requires |chassis| == CHASSIS_SIZE && |board| == BOARD_SIZE && |product| == PRODUCT_SIZE
    requires h == SealedHeader(header) && Placed(h, |img|) && Start(h, a) > 0 && i < Size(a) && k == 8 * Start(h, a) + i
    ensures AreaOf(StoredAll(img, header, chassis, board, product), h, a)[i]
            == Over(Start(h, Product), product, |img|, k,
                 Over(Start(h, Board), board, |img|, k,
                   Over(Start(h, Chassis), chassis, |img|, k, AreaOf(img, h, a)[i])))
  {
    LastStoreWins(img, header, chassis, board, product, h, k);
  }

  /** What the stores leave in the three areas, where these are placed. */
  function ChassisLeft(h: Header, chassis: seq<byte>, board: seq<byte>, product: seq<byte>, chipSize: nat, was: seq<byte>): (r: seq<byte>)
    requires |chassis| == CHASSIS_SIZE == |was| && board != [] && product != []
    ensures |r| == CHASSIS_SIZE
  {
    var at := 8 * Start(h, Chassis);
    Covered(Overlay(h, Product, product, chipSize), at, Covered(Overlay(h, Board, board, chipSize), at, Own(chassis, was)))
  }

  function BoardLeft(h: Header, chassis: seq<byte>, board: seq<byte>, product: seq<byte>, chipSize: nat, was: seq<byte>): (r: seq<byte>)
    requires |board| == BOARD_SIZE == |was| && chassis != [] && product != []
    ensures |r| == BOARD_SIZE
  {
    var at := 8 * Start(h, Board);
    Covered(Overlay(h, Product, product, chipSize), at, Own(board, Covered(Overlay(h, Chassis, chassis, chipSize), at, was)))
  }

  function ProductLeft(h: Header, chassis: seq<byte>, board: seq<byte>, product: seq<byte>, chipSize: nat, was: seq<byte>): (r: seq<byte>)
    requires |product| == PRODUCT_SIZE == |was| && chassis != [] && board != []
    ensures |r| == PRODUCT_SIZE
  {
    var at := 8 * Start(h, Product);
    Own(product, Covered(Overlay(h, Board, board, chipSize), at, Covered(Overlay(h, Chassis, chassis, chipSize), at, was)))
  }

  lemma ChassisIsLeft(img: seq<byte>, header: Header, chassis: seq<byte>, board: seq<byte>, product: seq<byte>, h: Header)
    requires |chassis| == CHASSIS_SIZE && |board| == BOARD_SIZE && |product| == PRODUCT_SIZE
    requires h == SealedHeader(header) && Placed(h, |img|) && Start(h, Chassis) > 0
    ensures AreaOf(StoredAll(img, header, chassis, board, product), h, Chassis)
            == ChassisLeft(h, chassis, board, product, |img|, AreaOf(img, h, Chassis))
  {
    var n, at := |img|, 8 * Start(h, Chassis);
    var was := AreaOf(img, h, Chassis);
    var own := Own(chassis, was);
    var mid := Covered(Overlay(h, Board, board, n), at, own);
    var r := AreaOf(StoredAll(img, header, chassis, board, product), h, Chassis);
    forall i | 0 <= i < CHASSIS_SIZE ensures r[i] == ChassisLeft(h, chassis, board, product, n, was)[i] {
      var k := at + i;
      LastStoreInArea(img, header, chassis, board, product, h, Chassis, i, k);
      OverIsOwn(h, Chassis, chassis, n, was, i, k);
      OverIsCovered(h, Chassis, Board, board, n, own, i, k);
      OverIsCovered(h, Chassis, Product, product, n, mid, i, k);
    }
  }

  lemma BoardIsLeft(img: seq<byte>, header: Header, chassis: seq<byte>, board: seq<byte>, product: seq<byte>, h: Header)
    requires |chassis| == CHASSIS_SIZE && |board| == BOARD_SIZE && |product| == PRODUCT_SIZE
    requires h == SealedHeader(header) && Placed(h, |img|) && Start(h, Board) > 0
    ensures AreaOf(StoredAll(img, header, chassis, board, product), h, Board)
            == BoardLeft(h, chassis, board, product, |img|, AreaOf(img, h, Board))
  {
    var n, at := |img|, 8 * Start(h, Board);
    var was := AreaOf(img, h, Board);
    var below := Covered(Overlay(h, Chassis, chassis, n), at, was);
    var own := Own(board, below);
    var r := AreaOf(StoredAll(img, header, chassis, board, product), h, Board);
    forall i | 0 <= i < BOARD_SIZE ensures r[i] == BoardLeft(h, chassis, board, product, n, was)[i] {
      var k := at + i;
      LastStoreInArea(img, header, chassis, board, product, h, Board, i, k);
      OverIsCovered(h, Board, Chassis, chassis, n, was, i, k);
      OverIsOwn(h, Board, board, n, below, i, k);
      OverIsCovered(h, Board, Product, product, n, own, i, k);
    }
  }

  lemma ProductIsLeft(img: seq<byte>, header: Header, chassis: seq<byte>, board: seq<byte>, product: seq<byte>, h: Header)
    requires |chassis| == CHASSIS_SIZE && |board| == BOARD_SIZE && |product| == PRODUCT_SIZE
    requires h == SealedHeader(header) && Placed(h, |img|) && Start(h, Product) > 0
    ensures AreaOf(StoredAll(img, header, chassis, board, product), h, Product)
            == ProductLeft(h, chassis, board, product, |img|, AreaOf(img, h, Product))
  {
    var n, at := |img|, 8 * Start(h, Product);
    var was := AreaOf(img, h, Product);
    var below := Covered(Overlay(h, Chassis, chassis, n), at, was);
    var mid := Covered(Overlay(h, Board, board, n), at, below);
    var r := AreaOf(StoredAll(img, header, chassis, board, product), h, Product);
    forall i | 0 <= i < PRODUCT_SIZE ensures r[i] == ProductLeft(h, chassis, board, product, n, was)[i] {
      var k := at + i;
      LastStoreInArea(img, header, chassis, board, product, h, Product, i, k);
      OverIsCovered(h, Product, Chassis, chassis, n, was, i, k);
      OverIsCovered(h, Product, Board, board, n, below, i, k);
      OverIsOwn(h, Product, product, n, mid, i, k);
    }
  }

  predicate ReadAs(r: seq<byte>, h: Header, a: Area, area: seq<byte>)
    requires Placed(h, |r|) && |area| == Size(a)
  {
    Start(h, a) > 0 ==> AreaOf(r, h, a) == Sealed(area)
  }

  /** The header that is stored is there after all stores: the last area over it starts with the same bytes, if there is one. */
  predicate HeaderStays(img: seq<byte>, h: Header, chassis: seq<byte>, board: seq<byte>, product: seq<byte>)
    requires |chassis| == CHASSIS_SIZE && |board| == BOARD_SIZE && |product| == PRODUCT_SIZE
  {
    if Overlays(h, Product, product, |img|) then product[..HEADER_SIZE] == h
    else if Overlays(h, Board, board, |img|) then board[..HEADER_SIZE] == h
    else if Overlays(h, Chassis, chassis, |img|) then chassis[..HEADER_SIZE] == h
    else h[0] > 0 || HeaderOf(img, h)
  }

  /** The placed areas, with what unplaced ones put over them, are what they were to be. */
  predicate AreasStay(img: seq<byte>, h: Header, chassis: seq<byte>, board: seq<byte>, product: seq<byte>)
    requires |chassis| == CHASSIS_SIZE && |board| == BOARD_SIZE && |product| == PRODUCT_SIZE && Placed(h, |img|)
  {
    && (Start(h, Chassis) > 0 ==>
          ChassisLeft(h, chassis, board, product, |img|, AreaOf(img, h, Chassis)) == Sealed(chassis))
    && (Start(h, Board) > 0 ==>
          BoardLeft(h, chassis, board, product, |img|, AreaOf(img, h, Board)) == Sealed(board))
    && (Start(h, Product) > 0 ==>
          ProductLeft(h, chassis, board, product, |img|, AreaOf(img, h, Product)) == Sealed(product))
  }

  /** The header and all placed areas are read back as they were to be stored exactly under these conditions. */
  lemma StoredIsReadExactly(img: seq<byte>, header: Header, chassis: seq<byte>, board: seq<byte>, product: seq<byte>, h: Header)
    requires |chassis| == CHASSIS_SIZE && |board| == BOARD_SIZE && |product| == PRODUCT_SIZE
    requires h == SealedHeader(header) && Placed(h, |img|)
    ensures var r := StoredAll(img, header, chassis, board, product);
      HeaderOf(r, h) && ReadAs(r, h, Chassis, chassis) && ReadAs(r, h, Board, board) && ReadAs(r, h, Product, product)
      <==> HeaderStays(img, h, chassis, board, product) && AreasStay(img, h, chassis, board, product)
  {
    HeaderSurvives(img, header, chassis, board, product);
    if Start(h, Chassis) > 0 { ChassisIsLeft(img, header, chassis, board, product, h); }
    if Start(h, Board) > 0 { BoardIsLeft(img, header, chassis, board, product, h); }
    if Start(h, Product) > 0 { ProductIsLeft(img, header, chassis, board, product, h); }
  }

  /** The area is read as it was to be stored: a placed one without a format version only if it was there before. */
  predicate Lands(img: seq<byte>, h: Header, a: Area, area: seq<byte>)
    requires Placed(h, |img|) && |area| == Size(a)
  {
    !Overlays(h, a, area, |img|) && (Start(h, a) > 0 ==> area[0] > 0 || AreaOf(img, h, a) == Sealed(area))
  }

  /** The bytes the header is made of do not happen to be those of an area that would be stored over it. */
  predicate Distinguished(h: Header, a: Area, area: seq<byte>, chipSize: nat)
    requires |area| == Size(a)
  {
    Overlays(h, a, area, chipSize) ==> area[..HEADER_SIZE] != h
  }

  /** Unless an area stored over the header happens to start with its bytes, nothing may be stored over it at all. */
  lemma StoredIsReadPlainly(img: seq<byte>, header: Header, chassis: seq<byte>, board: seq<byte>, product: seq<byte>, h: Header)
    requires |chassis| == CHASSIS_SIZE && |board| == BOARD_SIZE && |product| == PRODUCT_SIZE
    requires h == SealedHeader(header) && Placed(h, |img|)
    requires Distinguished(h, Chassis, chassis, |img|) && Distinguished(h, Board, board, |img|)
    requires Distinguished(h, Product, product, |img|)
    ensures var r := StoredAll(img, header, chassis, board, product);
      HeaderOf(r, h) && ReadAs(r, h, Chassis, chassis) && ReadAs(r, h, Board, board) && ReadAs(r, h, Product, product)
      <==> (h[0] > 0 || HeaderOf(img, h))
           && Lands(img, h, Chassis, chassis) && Lands(img, h, Board, board) && Lands(img, h, Product, product)
  {
    StoredIsReadExactly(img, header, chassis, board, product, h);
    if !Overlays(h, Chassis, chassis, |img|) && !Overlays(h, Board, board, |img|) && !Overlays(h, Product, product, |img|) {
      AreasAlone(img, h, chassis, board, product);
    } else {
      assert !HeaderStays(img, h, chassis, board, product);
    }
  }

  lemma AreasAlone(img: seq<byte>, h: Header, chassis: seq<byte>, board: seq<byte>, product: seq<byte>)
    requires |chassis| == CHASSIS_SIZE && |board| == BOARD_SIZE && |product| == PRODUCT_SIZE && Placed(h, |img|)
    requires !Overlays(h, Chassis, chassis, |img|) && !Overlays(h, Board, board, |img|) && !Overlays(h, Product, product, |img|)
    ensures AreasStay(img, h, chassis, board, product)
            <==> Lands(img, h, Chassis, chassis) && Lands(img, h, Board, board) && Lands(img, h, Product, product)
  {
  }

  /** Without areas stored over the header each placed one is as stored, or as it was. */
  lemma StoredInPlace(img: seq<byte>, header: Header, chassis: seq<byte>, board: seq<byte>, product: seq<byte>, h: Header)
    requires |chassis| == CHASSIS_SIZE && |board| == BOARD_SIZE && |product| == PRODUCT_SIZE
    requires header[0] > 0 && h == SealedHeader(header) && Placed(h, |img|)
    requires !Overlays(h, Chassis, chassis, |img|) && !Overlays(h, Board, board, |img|) && !Overlays(h, Product, product, |img|)
    ensures var r := StoredAll(img, header, chassis, board, product);
      && HeaderOf(r, h)
      && (Start(h, Chassis) > 0 ==> AreaOf(r, h, Chassis) == if chassis[0] > 0 then Sealed(chassis) else AreaOf(img, h, Chassis))
      && (Start(h, Board) > 0 ==> AreaOf(r, h, Board) == if board[0] > 0 then Sealed(board) else AreaOf(img, h, Board))
      && (Start(h, Product) > 0 ==> AreaOf(r, h, Product) == if product[0] > 0 then Sealed(product) else AreaOf(img, h, Product))
  {
    HeaderSurvives(img, header, chassis, board, product);
    if Start(h, Chassis) > 0 { ChassisIsLeft(img, header, chassis, board, product, h); }
    if Start(h, Board) > 0 { BoardIsLeft(img, header, chassis, board, product, h); }
    if Start(h, Product) > 0 { ProductIsLeft(img, header, chassis, board, product, h); }
  }

  lemma PlacedAlike(g: Header, h: Header, chipSize: nat)
    requires Placed(g, chipSize) && forall a {:trigger Start(g, a)} :: Start(h, a) == Start(g, a)
    ensures Placed(h, chipSize)
  {
    forall a {:trigger Start(h, a)} | Start(h, a) > 0 ensures Fits(h, a, chipSize) {
      assert Start(g, a) == Start(h, a);
    }
    forall a, b {:trigger Start(h, a), Start(h, b)} | a != b && Start(h, a) > 0 && Start(h, b) > 0 ensures Apart(h, a, b) {
      assert Start(g, a) == Start(h, a) && Start(g, b) == Start(h, b);
      assert Apart(g, a, b);
    }
  }

  /** The store of one area leaves a header in place unless the area is stored over it. */
  lemma HeaderAfterStore(img: seq<byte>, h: Header, a: Area, area: seq<byte>)
    requires |img| >= HEADER_SIZE && |area| == Size(a)
    ensures HeaderOf(StoredIf(img, Start(h, a), area), h)
            <==> if Overlays(h, a, area, |img|) then area[..HEADER_SIZE] == h else HeaderOf(img, h)
  {
    var at, data := 8 * Start(h, a), Sealed(area);
    assert data[..HEADER_SIZE] == area[..HEADER_SIZE];
    if area[0] > 0 && at + |area| <= |img| {
      if at == 0 {
        PatchHere(img, 0, data);
        assert Patch(img, 0, data)[..HEADER_SIZE] == data[..HEADER_SIZE];
      } else {
        PatchElsewhere(img, at, data, 0, HEADER_SIZE);
      }
    }
  }

  /** Exactly then the header is there after all stores. */
  lemma HeaderSurvives(img: seq<byte>, header: Header, chassis: seq<byte>, board: seq<byte>, product: seq<byte>)
    requires |chassis| == CHASSIS_SIZE && |board| == BOARD_SIZE && |product| == PRODUCT_SIZE && |img| >= HEADER_SIZE
    ensures HeaderOf(StoredAll(img, header, chassis, board, product), SealedHeader(header))
            <==> HeaderStays(img, SealedHeader(header), chassis, board, product)
  {
    var h := SealedHeader(header);
    var i1 := StoredIf(img, 0, header);
    var i2 := StoredIf(i1, Start(h, Chassis), chassis);
    var i3 := StoredIf(i2, Start(h, Board), board);
    if header[0] > 0 { HeaderIsStored(img, header); }
    HeaderAfterStore(i1, h, Chassis, chassis);
    HeaderAfterStore(i2, h, Board, board);
    HeaderAfterStore(i3, h, Product, product);
    assert StoredAll(img, header, chassis, board, product) == StoredIf(i3, Start(h, Product), product);
  }

  /** An area with a format version that the header does not place is stored over the header. */
  lemma UnplacedAreaOverwritesHeader()
    ensures var header: Header := [1, 0, 0, 0, 0, 0, 0, 0];
      var chassis, board, product := [7] + Repeat0(63), Repeat0(248), Repeat0(192);
      !HeaderOf(StoredAll(Repeat0(256), header, chassis, board, product), SealedHeader(header))
  {
    var header: Header := [1, 0, 0, 0, 0, 0, 0, 0];
    var chassis, board, product: seq<byte> := [7] + Repeat0(63), Repeat0(248), Repeat0(192);
    assert chassis[0] == 7 && board[0] == 0 && product[0] == 0;
    ChassisIsStoredOver(Repeat0(256), header, chassis, board, product);
  }

  lemma ChassisIsStoredOver(img: seq<byte>, header: Header, chassis: seq<byte>, board: seq<byte>, product: seq<byte>)
    requires |img| == 256 && |chassis| == CHASSIS_SIZE && |board| == BOARD_SIZE && |product| == PRODUCT_SIZE
    requires header[0] == 1 && header[2] == header[3] == header[4] == 0
    requires chassis[0] == 7 && board[0] == 0 && product[0] == 0
    ensures !HeaderOf(StoredAll(img, header, chassis, board, product), SealedHeader(header))
  {
    assert forall a {:trigger Start(header, a)} :: Start(header, a) == 0;
    HeaderSurvives(img, header, chassis, board, product);
    assert chassis[..HEADER_SIZE][0] == 7;
  }

  function Repeat0(n: nat): (r: seq<byte>)
    ensures |r| == n && forall k :: 0 <= k < n ==> r[k] == 0
  {
    seq(n, _ => 0)
  }

  /** Changing any single byte of an area that is there makes the image unreadable. */
  lemma ByteChangeIsNoticed(img: seq<byte>, a: Area, k: nat, b: byte)
    requires Readable(img) && Start(img[..HEADER_SIZE], a) > 0
    requires k < |img| && 8 * Start(img[..HEADER_SIZE], a) <= k < 8 * Start(img[..HEADER_SIZE], a) + Size(a) && b != img[k]
    ensures !Readable(img[k := b])
  {
    var h: Header := img[..HEADER_SIZE];
    var at := 8 * Start(h, a);
    var changed := img[k := b];
    assert AreaReads(img, h, a) by { if a == Chassis {} else if a == Board {} else { assert a == Product; } }
    var area := AreaOf(img, h, a);
    assert Checked(area) && area[k - at] == img[k];
    OneByteIsNoticed(area, k - at, b);
    assert changed[..HEADER_SIZE] == h;
    assert AreaOf(changed, h, a) == area[k - at := b];
    assert !AreaReads(changed, h, a);
  }
}
