/**
  `encodeQR` of src/api/audit-verify.ts (lines 516-694) as a whole: the reserved modules
  of its 29 x 29 symbol, and reading the finished symbol back.
*/
module QrSymbol {
  import opened Wrappers
  import opened GF256
  import opened GFLogs
  import opened Polynomials
  import ReedSolomon
  import opened QrBits
  import opened QrPlacement

  const SIZE: nat := 29

  // ---- reserved modules ------------------------------------------------------------

  predicate Within(x: Cell, top: int, bottom: int, left: int, right: int) {
    top <= x.0 <= bottom && left <= x.1 <= right
  }

  predicate InFinder(x: Cell) {
    Within(x, -1, 7, -1, 7) || Within(x, -1, 7, SIZE - 8, SIZE) || Within(x, SIZE - 8, SIZE, -1, 7)
  }

  predicate InTiming(x: Cell) {
    Within(x, 6, 6, 8, SIZE - 9) || Within(x, 8, SIZE - 9, 6, 6)
  }

  predicate InAlignment(x: Cell) {
    Within(x, SIZE - 9, SIZE - 5, SIZE - 9, SIZE - 5)
  }

  predicate InFormat(x: Cell) {
    || Within(x, 8, 8, 0, 8) || Within(x, 0, 8, 8, 8)
    || Within(x, 8, 8, SIZE - 8, SIZE - 1) || Within(x, SIZE - 8, SIZE - 1, 8, 8)
  }

  predicate Reserved(x: Cell) {
    InFinder(x) || InTiming(x) || InAlignment(x) || InFormat(x)
  }

  /** The reserved modules in coordinates: three corners, row and column 6, and one square. */
  lemma ReservedExactly(r: nat, c: nat)
    requires r < 29 && c < 29
    ensures Reserved((r, c)) <==>
            || (r <= 8 && c <= 8) || (r <= 8 && c >= 21) || (r >= 21 && c <= 8)
            || r == 6 || c == 6
            || (20 <= r <= 24 && 20 <= c <= 24)
  {
  }

  /** `setModule` with `res` true, as far as the flags go. */
  method SetModule(reserved: array2<bool>, r: int, c: int)
    requires reserved.Length0 == reserved.Length1 == SIZE
    modifies reserved
    ensures forall i, j :: 0 <= i < SIZE && 0 <= j < SIZE ==>
              reserved[i, j] == (old(reserved[i, j]) || (i == r && j == c))
  {
    if r < 0 || c < 0 || r >= SIZE || c >= SIZE {
      return;
    }
    reserved[r, c] := true;
  }

  /** The nested loops that draw a finder or the alignment pattern. */
  method AddBlock(reserved: array2<bool>, top: int, bottom: int, left: int, right: int)
    requires reserved.Length0 == reserved.Length1 == SIZE && top <= bottom + 1 && left <= right + 1
    modifies reserved
    ensures forall i, j :: 0 <= i < SIZE && 0 <= j < SIZE ==>
              reserved[i, j] == (old(reserved[i, j]) || Within((i, j), top, bottom, left, right))
  {
    for r := top to bottom + 1
      invariant forall i, j :: 0 <= i < SIZE && 0 <= j < SIZE ==>
                  reserved[i, j] == (old(reserved[i, j]) || Within((i, j), top, r - 1, left, right))
    {
      for c := left to right + 1
        invariant forall i, j :: 0 <= i < SIZE && 0 <= j < SIZE ==>
                    reserved[i, j] == (old(reserved[i, j]) || Within((i, j), top, r - 1, left, right)
                                       || Within((i, j), r, r, left, c - 1))
      {
        SetModule(reserved, r, c);
      }
    }
  }

  method AddTiming(reserved: array2<bool>)
    requires reserved.Length0 == reserved.Length1 == SIZE
    modifies reserved
    ensures forall i, j :: 0 <= i < SIZE && 0 <= j < SIZE ==>
              reserved[i, j] == (old(reserved[i, j]) || InTiming((i, j)))
  {
    for k := 8 to SIZE - 8
      invariant forall i, j :: 0 <= i < SIZE && 0 <= j < SIZE ==>
                  reserved[i, j] == (old(reserved[i, j]) || Within((i, j), 6, 6, 8, k - 1)
                                     || Within((i, j), 8, k - 1, 6, 6))
    {
      SetModule(reserved, 6, k);
      SetModule(reserved, k, 6);
    }
  }

  method AddFormat(reserved: array2<bool>)
    requires reserved.Length0 == reserved.Length1 == SIZE
    modifies reserved
    ensures forall i, j :: 0 <= i < SIZE && 0 <= j < SIZE ==>
              reserved[i, j] == (old(reserved[i, j]) || InFormat((i, j)))
  {
    for k := 0 to 9
      invariant forall i, j :: 0 <= i < SIZE && 0 <= j < SIZE ==>
                  reserved[i, j] == (old(reserved[i, j]) || Within((i, j), 8, 8, 0, k - 1)
                                     || Within((i, j), 0, k - 1, 8, 8))
    {
      SetModule(reserved, 8, k);
      SetModule(reserved, k, 8);
    }
    for k := SIZE - 8 to SIZE
      invariant forall i, j :: 0 <= i < SIZE && 0 <= j < SIZE ==>
                  reserved[i, j] == (old(reserved[i, j]) || Within((i, j), 8, 8, 0, 8) || Within((i, j), 0, 8, 8, 8)
                                     || Within((i, j), 8, 8, SIZE - 8, k - 1)
                                     || Within((i, j), SIZE - 8, k - 1, 8, 8))
    {
      SetModule(reserved, 8, k);
      SetModule(reserved, k, 8);
    }
  }

  method ReserveModules() returns (reserved: array2<bool>)
    ensures fresh(reserved) && reserved.Length0 == reserved.Length1 == SIZE
    ensures forall i, j :: 0 <= i < SIZE && 0 <= j < SIZE ==> reserved[i, j] == Reserved((i, j))
  {
    hide Within;
    reserved := new bool[SIZE, SIZE]((_, _) => false);
    AddBlock(reserved, -1, 7, -1, 7);
    AddBlock(reserved, -1, 7, SIZE - 8, SIZE);
    AddBlock(reserved, SIZE - 8, SIZE, -1, 7);
    AddTiming(reserved);
    SetModule(reserved, SIZE - 8, 8);
    AddBlock(reserved, SIZE - 9, SIZE - 5, SIZE - 9, SIZE - 5);
    AddFormat(reserved);
    DarkModule();
  }

  /** The dark module lies in the format area. */
  lemma DarkModule()
    ensures Within((SIZE - 8, 8), SIZE - 8, SIZE - 1, 8, 8)
  {
  }

  // ---- the cells that carry data -------------------------------------------------------

  function DataCells(): seq<Cell> {
    Free(Order(SIZE), Reserved)
  }

  function Block(top: nat, bottom: nat, left: nat, right: nat): set<Cell> {
    set r, c | top <= r < bottom && left <= c < right :: (r, c)
  }

  lemma {:induction false} RowSize(r: nat, left: nat, right: nat)
    requires left <= right
    ensures |Block(r, r + 1, left, right)| == right - left
    decreases right - left
  {
    if left < right {
      RowSize(r, left, right - 1);
      assert Block(r, r + 1, left, right) == Block(r, r + 1, left, right - 1) + {(r, right - 1)};
    } else {
      assert Block(r, r + 1, left, right) == {};
    }
  }

  lemma BlockGrows(top: nat, bottom: nat, left: nat, right: nat)
    requires top <= bottom && left <= right
    ensures |Block(top, bottom + 1, left, right)| == |Block(top, bottom, left, right)| + (right - left)
  {
    var a, b := Block(top, bottom, left, right), Block(bottom, bottom + 1, left, right);
    RowSize(bottom, left, right);
    assert Block(top, bottom + 1, left, right) == a + b;
    assert a !! b;
  }

  lemma {:induction false} BlockSize(top: nat, bottom: nat, left: nat, right: nat)
    requires top <= bottom && left <= right
    ensures |Block(top, bottom, left, right)| == (bottom - top) * (right - left)
    decreases bottom - top
  {
    if top < bottom {
      hide Block;
      BlockSize(top, bottom - 1, left, right);
      BlockGrows(top, bottom - 1, left, right);
    } else {
      assert Block(top, bottom, left, right) == {};
    }
  }

  /** The cells of the order that no function pattern takes. */
  function FreeSet(): set<Cell> {
    set r, c | 0 <= r < SIZE && 0 <= c < SIZE && c != 6 && !Reserved((r, c)) :: (r, c)
  }

  lemma FreeBlocks()
    ensures FreeSet() ==
            Block(9, 21, 0, 6) + Block(9, 21, 7, 9) + Block(0, 6, 9, 21) + Block(7, 29, 9, 20)
            + Block(7, 20, 20, 21) + Block(25, 29, 20, 25) + Block(9, 20, 21, 25) + Block(9, 29, 25, 29)
  {
  }

  lemma BlocksApart()
    ensures Block(9, 21, 0, 6) !! Block(9, 21, 7, 9) !! Block(0, 6, 9, 21) !! Block(7, 29, 9, 20)
            !! Block(7, 20, 20, 21) !! Block(25, 29, 20, 25) !! Block(9, 20, 21, 25) !! Block(9, 29, 25, 29)
  {
  }

  lemma FreeSetSize()
    ensures |FreeSet()| == 567
  {
    hide Block, FreeSet;
    FreeBlocks();
    BlockSize(9, 21, 0, 6);
    BlockSize(9, 21, 7, 9);
    BlockSize(0, 6, 9, 21);
    BlockSize(7, 29, 9, 20);
    BlockSize(7, 20, 20, 21);
    BlockSize(25, 29, 20, 25);
    BlockSize(9, 20, 21, 25);
    BlockSize(9, 29, 25, 29);
    BlocksApart();
  }

  lemma {:induction false} DistinctSize(cells: seq<Cell>)
    requires Distinct(cells)
    ensures |set x | x in cells| == |cells|
  {
    if cells != [] {
      var n := |cells| - 1;
      assert cells == cells[..n] + [cells[n]];
      DistinctSize(cells[..n]);
      assert cells[n] !in cells[..n];
      assert (set x | x in cells) == (set x | x in cells[..n]) + {cells[n]};
    }
  }

  /** The symbol has 567 cells for data, none of them reserved. */
  lemma DataCellCount()
    ensures |DataCells()| == 567 && Distinct(DataCells())
    ensures forall x :: x in DataCells() <==> x.0 < SIZE && x.1 < SIZE && !Reserved(x)
  {
    hide Free, Order, Reserved, Distinct;
    EveryColumnButSixOnce(SIZE);
    FreeCells(Order(SIZE), Reserved);
    ColumnSix();
    DistinctSize(DataCells());
    FreeSetSize();
    assert (set x | x in DataCells()) == FreeSet();
  }

  /** Column 6, which the placement skips, is reserved entirely. */
  lemma ColumnSix()
    ensures forall x: Cell :: x.0 < SIZE && x.1 == 6 ==> Reserved(x)
  {
  }

  // ---- format bits ------------------------------------------------------------------------

  const FORMAT_CELLS_1: seq<Cell> :=
    [(8, 0), (8, 1), (8, 2), (8, 3), (8, 4), (8, 5), (8, 7), (8, 8),
     (7, 8), (5, 8), (4, 8), (3, 8), (2, 8), (1, 8), (0, 8)]

  const FORMAT_CELLS_2: seq<Cell> :=
    [(SIZE - 1, 8), (SIZE - 2, 8), (SIZE - 3, 8), (SIZE - 4, 8), (SIZE - 5, 8), (SIZE - 6, 8), (SIZE - 7, 8),
     (8, SIZE - 8), (8, SIZE - 7), (8, SIZE - 6), (8, SIZE - 5), (8, SIZE - 4), (8, SIZE - 3), (8, SIZE - 2),
     (8, SIZE - 1)]

  const FORMAT_BITS: seq<Bit> := [1, 0, 1, 0, 1, 0, 0, 0, 0, 0, 1, 0, 0, 1, 0]

  lemma FormatCellsReserved(i: nat)
    requires i < 15
    ensures InFormat(FORMAT_CELLS_1[i]) && InFormat(FORMAT_CELLS_2[i])
    ensures FORMAT_CELLS_1[i].0 < SIZE && FORMAT_CELLS_1[i].1 < SIZE
    ensures FORMAT_CELLS_2[i].0 < SIZE && FORMAT_CELLS_2[i].1 < SIZE
  {
  }

  method WriteFormat(matrix: array2<Module>)
    requires matrix.Length0 == matrix.Length1 == SIZE
    modifies matrix
    ensures forall i, j :: 0 <= i < SIZE && 0 <= j < SIZE && !Reserved((i, j)) ==> matrix[i, j] == old(matrix[i, j])
  {
    hide InFormat, InFinder, InTiming, InAlignment;
    for k := 0 to 15
      invariant forall i, j :: 0 <= i < SIZE && 0 <= j < SIZE && !Reserved((i, j)) ==>
                  matrix[i, j] == old(matrix[i, j])
    {
      FormatCellsReserved(k);
      var (r1, c1) := FORMAT_CELLS_1[k];
      var (r2, c2) := FORMAT_CELLS_2[k];
      matrix[r1, c1] := Set(FORMAT_BITS[k]);
      matrix[r2, c2] := Set(FORMAT_BITS[k]);
    }
  }

  // ---- what the symbol carries ---------------------------------------------------------------

  function DataCodewords(bytes: seq<Byte>): (codewords: seq<Byte>)
    ensures |codewords| == if |bytes| <= 42 then 44 else |bytes| + 2
  {
    Pack(DataBits(bytes))
  }

  /** The placed bits of a message with given error-correction codewords. */
  function Placed(bytes: seq<Byte>, ec: seq<Byte>): (bits: seq<Bit>)
    requires |ec| == 26
    ensures |bits| == 567
  {
    SymbolBits(DataCodewords(bytes), ec)[..567]
  }

  lemma PlacedStartsWithMessage(bytes: seq<Byte>, ec: seq<Byte>)
    requires |ec| == 26
    ensures exists rest: seq<Bit> :: SymbolBits(DataCodewords(bytes), ec) == Message(bytes) + rest
  {
    hide Pack, Unpack, Message;
    UnpackPack(DataBits(bytes));
    var z := DataBits(bytes)[|Message(bytes)|..];
    assert DataBits(bytes) == Message(bytes) + z;
    var rest := z + Unpack(ec) + QrBits.Zeros(7);
    assert SymbolBits(DataCodewords(bytes), ec) == Message(bytes) + rest;
  }

  /** Up to 69 bytes the placed bits decode to the encoded bytes. */
  lemma PlacedReads(bytes: seq<Byte>, ec: seq<Byte>)
    requires |ec| == 26 && |bytes| <= 69
    ensures ReadMessage(Placed(bytes, ec)) == Some(bytes)
  {
    hide DataCodewords, Message, DataBits, ReadMessage, SymbolBits;
    PlacedStartsWithMessage(bytes, ec);
    var rest: seq<Bit> :| SymbolBits(DataCodewords(bytes), ec) == Message(bytes) + rest;
    var n := 567 - |Message(bytes)|;
    assert Placed(bytes, ec) == Message(bytes) + rest[..n];
    ReadsMessage(bytes, rest[..n]);
  }

  /** Beyond 69 bytes they cannot: every text shares its placed bits with another one. */
  lemma PlacedAmbiguous(bytes: seq<Byte>, ec: seq<Byte>, ec2: seq<Byte>) returns (other: seq<Byte>)
    requires |ec| == 26 && |ec2| == 26 && |bytes| >= 70
    ensures other != bytes && |other| == |bytes|
    ensures Placed(other, ec2) == Placed(bytes, ec)
  {
    hide DataCodewords, Message, DataBits, SymbolBits;
    var n := |bytes| - 1;
    var last: Byte := if bytes[n] % 2 == 0 then bytes[n] + 1 else bytes[n] - 1;
    other := bytes[..n] + [last];
    PlacedStartsWithMessage(bytes, ec);
    PlacedStartsWithMessage(other, ec2);
    MessagePrefix(bytes, last);
    var r1: seq<Bit> :| SymbolBits(DataCodewords(bytes), ec) == Message(bytes) + r1;
    var r2: seq<Bit> :| SymbolBits(DataCodewords(other), ec2) == Message(other) + r2;
    assert Placed(bytes, ec) == Message(bytes)[..567];
    assert Placed(other, ec2) == Message(other)[..567];
    assert Message(bytes)[..567] == Message(bytes)[..571][..567];
    assert Message(other)[..567] == Message(other)[..571][..567];
  }

  lemma MessagePrefix(bytes: seq<Byte>, last: Byte)
    requires |bytes| >= 70
    requires last == if bytes[|bytes| - 1] % 2 == 0 then bytes[|bytes| - 1] + 1 else bytes[|bytes| - 1] - 1
    ensures Message(bytes)[..571] == Message(bytes[..|bytes| - 1] + [last])[..571]
  {
    hide BitsOf, Unpack;
    var n := |bytes| - 1;
    var front := BitsOf(4, 4) + BitsOf(|bytes|, 8) + Unpack(bytes[..n]);
    UnpackConcat(bytes[..n], [bytes[n]]);
    UnpackConcat(bytes[..n], [last]);
    UnpackOne(bytes[n]);
    UnpackOne(last);
    assert bytes == bytes[..n] + [bytes[n]];
    assert Message(bytes) == front + BitsOf(bytes[n] / 2, 7) + [bytes[n] % 2];
    assert Message(bytes[..n] + [last]) == front + BitsOf(last / 2, 7) + [last % 2];
  }

  lemma UnpackOne(b: Byte)
    ensures Unpack([b]) == BitsOf(b / 2, 7) + [b % 2]
  {
    assert [b][1..] == [];
  }

  /** Up to 42 bytes the whole Reed-Solomon codeword is placed; from 43 on it is cut. */
  lemma PlacedCodeword(bytes: seq<Byte>, ec: seq<Byte>)
    requires |ec| == 26
    ensures |bytes| <= 42 ==> Placed(bytes, ec)[..560] == Unpack(DataCodewords(bytes) + ec)
    ensures |bytes| > 42 ==> |Unpack(DataCodewords(bytes) + ec)| > 567
  {
    hide Unpack, DataCodewords;
    UnpackConcat(DataCodewords(bytes), ec);
  }

  // ---- encodeQR ----------------------------------------------------------------------------

  /** A reader undoes the mask and follows the zigzag over the cells that are not reserved. */
  ghost function ReadSymbol(symbol: array2<bool>): (bits: seq<Bit>)
    requires symbol.Length0 == symbol.Length1 == SIZE
    reads symbol
    ensures |bits| == 567
  {
    hide Free, Order, Distinct, Reserved;
    DataCellCount();
    ReadBack(symbol, DataCells())
  }

  /** The bits are the data codewords of the text and then their check symbols. */
  ghost predicate CarriesCodeword(bits: seq<Bit>, bytes: seq<Byte>, ec: seq<Byte>) {
    && |ec| == 26
    && (forall i :: 0 <= i < 26 ==> Eval(DataCodewords(bytes) + ec, Power(i)) == 0)
    && bits == Placed(bytes, ec)
  }

  /** The symbol for the bytes of a text.  A reader gets the text back if it has at most 69
      bytes; by `PlacedCodeword` it gets the whole Reed-Solomon codeword up to 42. */
  method EncodeQR(bytes: seq<Byte>) returns (symbol: array2<bool>)
    ensures fresh(symbol) && symbol.Length0 == symbol.Length1 == SIZE
    ensures |bytes| <= 69 ==> ReadMessage(ReadSymbol(symbol)) == Some(bytes)
    ensures exists ec :: CarriesCodeword(ReadSymbol(symbol), bytes, ec)
  {
    hide DataBits, Pack, Unpack, SymbolBits, DataCells, Reserved, Holds, ReadSymbol, ReadMessage, Eval, Power, Masked;
    hide Free, Order, Placed, Within, BitAt, ReedSolomon.Generator, ReedSolomon.IsCodeword;
    var dataBits := BuildDataBits(bytes);
    var dataCws := PackBits(dataBits);
    var tables := new ReedSolomon.GaloisTables();
    var ecCws := ReedSolomon.RsEncode(tables, dataCws, 26);
    var allBits := UnpackBits(dataCws + ecCws);
    AllBits(dataCws, ecCws);
    PlacedPrefix(bytes, ecCws);
    symbol := Draw(allBits);
    if |bytes| <= 69 {
      PlacedReads(bytes, ecCws);
    }
    assert CarriesCodeword(ReadSymbol(symbol), bytes, ecCws);
  }

  /** Lines 559-693: from the bits to the symbol. */
  method Draw(allBits: seq<Bit>) returns (symbol: array2<bool>)
    requires |allBits| >= 567
    ensures fresh(symbol) && symbol.Length0 == symbol.Length1 == SIZE
    ensures ReadSymbol(symbol) == allBits[..567]
  {
    hide DataCells, Reserved, Holds, ReadSymbol, Masked, Free, Order, Within, BitAt;
    var reserved := ReserveModules();
    var matrix := new Module[SIZE, SIZE]((_, _) => Unset);
    PlaceBits(matrix, reserved, Reserved, allBits);
    CellsHold(matrix, allBits);
    ApplyMask(matrix, reserved);
    WriteFormat(matrix);
    symbol := new bool[SIZE, SIZE]((r, c) requires 0 <= r < SIZE && 0 <= c < SIZE reads matrix =>
      matrix[r, c] == Set(1));
    ReadsPlaced(symbol, matrix, DataCells(), allBits);
    ReadSymbolIs(symbol);
  }

  lemma ReadSymbolIs(symbol: array2<bool>)
    requires symbol.Length0 == symbol.Length1 == SIZE
    ensures forall x :: x in DataCells() ==> x.0 < SIZE && x.1 < SIZE
    ensures ReadSymbol(symbol) == ReadBack(symbol, DataCells())
  {
    hide Free, Order, Distinct, Reserved;
    DataCellCount();
  }

  lemma CellsHold(matrix: array2<Module>, bits: seq<Bit>)
    requires matrix.Length0 == matrix.Length1 == SIZE && Holds(matrix, Free(Order(SIZE), Reserved), bits)
    ensures |DataCells()| == 567
    ensures forall i :: 0 <= i < 567 ==>
              var x := DataCells()[i];
              x.0 < SIZE && x.1 < SIZE && !Reserved(x) && matrix[x.0, x.1] == Set(BitAt(bits, i))
  {
    hide Reserved, Free, Order;
    DataCellCount();
    assert forall i :: 0 <= i < 567 ==> DataCells()[i] in DataCells();
  }

  lemma {:induction false} ReadBackIs(symbol: array2<bool>, cells: seq<Cell>, i: nat)
    requires i < |cells| && forall x :: x in cells ==> x.0 < symbol.Length0 && x.1 < symbol.Length1
    ensures ReadBack(symbol, cells)[i] == Seen(symbol[cells[i].0, cells[i].1], cells[i])
    decreases i
  {
    hide Seen;
    if i > 0 {
      ReadBackIs(symbol, cells[1..], i - 1);
    }
  }

  /** The place of an unreserved cell among the data cells: as many as come before it. */
  lemma DataCellAt(order: seq<Cell>, p: nat, x: Cell)
    requires At(order, p, x) && !Reserved(x)
    ensures At(Free(order, Reserved), |Free(order[..p], Reserved)|, x)
  {
    hide Free, Reserved;
    assert order == order[..p] + ([x] + order[p + 1..]);
    FreeConcat(order[..p], [x] + order[p + 1..], Reserved);
    FreeConcat([x], order[p + 1..], Reserved);
    FreeOne(x);
  }

  lemma FreeOne(x: Cell)
    requires !Reserved(x)
    ensures Free([x], Reserved) == [x]
  {
    hide Reserved;
    assert [x][1..] == [];
  }

  /** The module shows the bit counted by the unreserved cells before position p of the order:
      it is dark iff that is 1 and the module is not inverted, or 0 and it is. */
  ghost predicate Carries(symbol: array2<bool>, order: seq<Cell>, p: nat, r: nat, c: nat)
    requires symbol.Length0 == symbol.Length1 == SIZE && r < 29 && c < 29
    reads symbol
  {
    p < |order| &&
    var i := |Free(order[..p], Reserved)|;
    i < 567 && (symbol[r, c] <==> (ReadSymbol(symbol)[i] == 1) != ((r + c) % 2 == 0))
  }

  /** Positions go through pairs of columns from the right, column 6 left out, two cells a row, the
      first pair upwards and then in turn. */
  function Position(r: nat, c: nat): nat
    requires r < 29 && c < 29 && c != 6
  {
    var d := 28 - (if c < 6 then c + 1 else c);
    58 * (d / 2) + 2 * (if d / 2 % 2 == 0 then 28 - r else r) + d % 2
  }

  /** Every unreserved module in coordinates. */
  lemma ModuleAt(symbol: array2<bool>, r: nat, c: nat)
    requires symbol.Length0 == symbol.Length1 == SIZE && r < 29 && c < 29 && !Reserved((r, c))
    ensures c != 6 && Carries(symbol, Order(SIZE), Position(r, c), r, c)
  {
    hide Order, Free, Reserved, ReadBack, ReadSymbol, At, Seen, Position, Carries;
    NotColumnSix(r, c);
    PositionAt(r, c);
    CarriesAt(symbol, Order(SIZE), Position(r, c), r, c);
  }

  lemma PositionAt(r: nat, c: nat)
    requires r < 29 && c < 29 && c != 6
    ensures At(Order(SIZE), Position(r, c), (r, c))
  {
    hide Order, At;
    OrderAt(SIZE, r, c);
    var d := 28 - (if c < 6 then c + 1 else c);
    assert 2 * (29 * (d / 2)) == 58 * (d / 2);
  }

  lemma CarriesAt(symbol: array2<bool>, order: seq<Cell>, p: nat, r: nat, c: nat)
    requires symbol.Length0 == symbol.Length1 == SIZE && r < 29 && c < 29 && !Reserved((r, c))
    requires At(order, p, (r, c)) && DataCells() == Free(order, Reserved)
    ensures Carries(symbol, order, p, r, c)
  {
    hide Order, Free, Reserved, ReadBack, ReadSymbol, DataCells;
    var i := |Free(order[..p], Reserved)|;
    DataCellAt(order, p, (r, c));
    DataCellCount();
    ReadSymbolIs(symbol);
    ReadBackIs(symbol, DataCells(), i);
  }

  lemma NotColumnSix(r: nat, c: nat)
    requires r < 29 && c < 29 && !Reserved((r, c))
    ensures c != 6
  {
    ReservedExactly(r, c);
  }

  lemma SeenMasked(b: Bit, x: Cell)
    ensures Seen(Masked(Set(b), false, x.0, x.1) == Set(1), x) == b
  {
  }

  lemma ReadsPlaced(symbol: array2<bool>, matrix: array2<Module>, cells: seq<Cell>, bits: seq<Bit>)
    requires symbol.Length0 == symbol.Length1 == matrix.Length0 == matrix.Length1 == SIZE
    requires forall r, c :: 0 <= r < SIZE && 0 <= c < SIZE ==> (symbol[r, c] <==> matrix[r, c] == Set(1))
    requires |bits| >= |cells|
    requires forall i :: 0 <= i < |cells| ==>
               var x := cells[i];
               x.0 < SIZE && x.1 < SIZE &&
               matrix[x.0, x.1] == Masked(Set(BitAt(bits, i)), false, x.0, x.1)
    ensures forall x :: x in cells ==> x.0 < SIZE && x.1 < SIZE
    ensures ReadBack(symbol, cells) == bits[..|cells|]
  {
    hide Masked, Seen, ReadBack;
    forall i | 0 <= i < |cells|
      ensures Seen(symbol[cells[i].0, cells[i].1], cells[i]) == bits[i]
    {
      SeenMasked(bits[i], cells[i]);
    }
    ReadBackAt(symbol, cells, bits[..|cells|]);
  }

  lemma PlacedPrefix(bytes: seq<Byte>, ec: seq<Byte>)
    requires |ec| == 26
    ensures var bits := SymbolBits(DataCodewords(bytes), ec);
            |bits| >= 567 && Placed(bytes, ec) == bits[..567]
  {
  }

  lemma AllBits(data: seq<Byte>, ec: seq<Byte>)
    ensures Unpack(data + ec) + QrBits.Zeros(7) == SymbolBits(data, ec)
  {
    UnpackConcat(data, ec);
  }
}
