/**
  The placement loop and the mask of `encodeQR` in src/api/audit-verify.ts (lines 623-646),
  for any size and any set of reserved modules (sections 7.7.3 and 7.8 of ISO/IEC 18004:2015).
*/
module QrPlacement {
  import opened QrBits

  datatype Module = Unset | Set(bit: Bit)

  type Cell = (nat, nat)

  type Mask = Cell -> bool

  // ---- the order of placement ----------------------------------------------------------

  function RowAt(size: nat, upward: bool, rowOffset: nat): (row: nat)
    requires rowOffset < size
    ensures row < size
  {
    if upward then size - 1 - rowOffset else rowOffset
  }

  /** The cells of the column pair whose right column is c, from a row offset on. */
  function PairFrom(size: nat, c: nat, upward: bool, rowOffset: nat): seq<Cell>
    requires c >= 1
    decreases size - rowOffset
  {
    if rowOffset >= size then []
    else
      var row := RowAt(size, upward, rowOffset);
      [(row, c), (row, c - 1)] + PairFrom(size, c, upward, rowOffset + 1)
  }

  function Right(col: nat): nat {
    if col == 6 then 5 else col
  }

  function Next(col: nat): nat {
    if Right(col) < 2 then 0 else Right(col) - 2
  }

  function OrderFrom(size: nat, col: nat, upward: bool): seq<Cell>
    decreases col
  {
    if col < 1 then [] else PairFrom(size, Right(col), upward, 0) + OrderFrom(size, Next(col), !upward)
  }

  /** All cells in the order of the placement loop. */
  function Order(size: nat): seq<Cell>
    requires size >= 1
  {
    OrderFrom(size, size - 1, true)
  }

  /** The cells of a list that are not reserved. */
  function Free(order: seq<Cell>, mask: Mask): seq<Cell> {
    if order == [] then [] else (if mask(order[0]) then [] else [order[0]]) + Free(order[1..], mask)
  }

  ghost predicate Distinct(cells: seq<Cell>) {
    forall i, j :: 0 <= i < j < |cells| ==> cells[i] != cells[j]
  }

  lemma {:induction false} PairCells(size: nat, c: nat, upward: bool, rowOffset: nat)
    requires c >= 1
    ensures forall x :: x in PairFrom(size, c, upward, rowOffset) <==>
              (x.1 == c || x.1 == c - 1) && x.0 < size
              && rowOffset <= (if upward then size - 1 - x.0 else x.0)
    ensures Distinct(PairFrom(size, c, upward, rowOffset))
    decreases size - rowOffset
  {
    if rowOffset < size {
      var rest := PairFrom(size, c, upward, rowOffset + 1);
      var row := RowAt(size, upward, rowOffset);
      PairCells(size, c, upward, rowOffset + 1);
      DistinctConcat([(row, c), (row, c - 1)], rest);
    }
  }

  lemma NothingDistinct()
    ensures Distinct([])
  {
  }

  lemma DistinctConcat(a: seq<Cell>, b: seq<Cell>)
    requires Distinct(a) && Distinct(b) && forall x :: x in a ==> x !in b
    ensures Distinct(a + b)
  {
    assert forall i :: 0 <= i < |a| ==> a[i] in a;
    assert forall i :: 0 <= i < |b| ==> b[i] in b;
  }

  /** A column start of the loop over an odd size: even above column 6, odd below. */
  predicate Start(col: nat) {
    if col >= 6 then col % 2 == 0 else col % 2 == 1 || col == 0
  }

  lemma {:induction false} OrderCells(size: nat, col: nat, upward: bool)
    requires Start(col)
    ensures forall x :: x in OrderFrom(size, col, upward) <==> col >= 1 && x.0 < size && x.1 <= col && x.1 != 6
    ensures Distinct(OrderFrom(size, col, upward))
    decreases col
  {
    hide Distinct;
    if col >= 1 {
      var pair, rest := PairFrom(size, Right(col), upward, 0), OrderFrom(size, Next(col), !upward);
      PairCells(size, Right(col), upward, 0);
      OrderCells(size, Next(col), !upward);
      DistinctConcat(pair, rest);
    } else {
      NothingDistinct();
    }
  }

  /** The placement loop visits every cell outside column 6 exactly once, for every odd size
      of at least 7. */
  lemma EveryColumnButSixOnce(size: nat)
    requires size >= 7 && size % 2 == 1
    ensures forall x :: x in Order(size) <==> x.0 < size && x.1 < size && x.1 != 6
    ensures Distinct(Order(size))
  {
    OrderCells(size, size - 1, true);
  }

  /** How many columns the order takes from a column on; column 6 is not one. */
  function Width(c: nat): nat {
    if c == 0 || c >= 6 then c else c + 1
  }

  /** The n-th column from the left, column 6 left out. */
  function Column(n: nat): nat
    requires n > 0
  {
    if n <= 6 then n - 1 else n
  }

  predicate At(order: seq<Cell>, i: nat, x: Cell) {
    i < |order| && order[i] == x
  }

  lemma {:induction false} PairAt(size: nat, c: nat, upward: bool, rowOffset: nat, off: nat, side: nat)
    requires c >= 1 && rowOffset <= off < size && side < 2
    ensures |PairFrom(size, c, upward, rowOffset)| == 2 * (size - rowOffset)
    ensures At(PairFrom(size, c, upward, rowOffset), 2 * (off - rowOffset) + side,
               (if upward then size - 1 - off else off, c - side))
    decreases size - rowOffset
  {
    if rowOffset < off {
      PairAt(size, c, upward, rowOffset + 1, off, side);
    } else if rowOffset + 1 < size {
      PairAt(size, c, upward, rowOffset + 1, rowOffset + 1, side);
    }
  }

  lemma AtAfter(a: seq<Cell>, b: seq<Cell>, i: nat, x: Cell)
    requires At(b, i, x)
    ensures At(a + b, |a| + i, x)
  {
  }

  lemma AtBefore(a: seq<Cell>, b: seq<Cell>, i: nat, x: Cell)
    requires At(a, i, x)
    ensures At(a + b, i, x)
  {
  }

  lemma OneMore(size: nat, k: nat)
    requires k > 0
    ensures size * k == size + size * (k - 1)
  {
    assert size * k == size * ((k - 1) + 1);
  }

  lemma PositiveWidth(col: nat)
    ensures Width(col) > 0 ==> col > 0
  {
  }

  lemma NextWidth(col: nat)
    requires Start(col) && col >= 1
    ensures Width(Next(col)) == Width(col) - 2 && Start(Next(col)) && Right(col) == Column(Width(col))
    ensures Right(col) >= 1 && Next(col) < col && Right(col) - 1 == Column(Width(col) - 1)
  {
  }

  lemma OrderUnfold(size: nat, col: nat, upward: bool)
    requires Start(col) && col >= 1
    ensures OrderFrom(size, col, upward) ==
            PairFrom(size, Right(col), upward, 0) + OrderFrom(size, Next(col), !upward)
  {
    hide PairFrom;
  }

  /** In the k-th pair of columns the direction has changed k times. */
  lemma {:induction false} OrderFromAt(size: nat, col: nat, upward: bool, k: nat, off: nat, side: nat)
    requires Start(col) && off < size && side < 2 && 2 * k + side < Width(col)
    ensures var up := if k % 2 == 0 then upward else !upward;
            At(OrderFrom(size, col, upward), 2 * (size * k) + 2 * off + side,
               (if up then size - 1 - off else off, Column(Width(col) - 2 * k - side)))
    decreases col
  {
    hide PairFrom, OrderFrom, At, Width, Column, Right, Next, Start;
    PositiveWidth(col);
    NextWidth(col);
    OrderUnfold(size, col, upward);
    var pair, rest := PairFrom(size, Right(col), upward, 0), OrderFrom(size, Next(col), !upward);
    PairAt(size, Right(col), upward, 0, off, side);
    if k == 0 {
      AtBefore(pair, rest, 2 * off + side, (if upward then size - 1 - off else off, Right(col) - side));
    } else {
      OrderFromAt(size, Next(col), !upward, k - 1, off, side);
      OneMore(size, k);
      var up := if k % 2 == 0 then upward else !upward;
      AtAfter(pair, rest, 2 * (size * (k - 1)) + 2 * off + side,
              (if up then size - 1 - off else off, Column(Width(col) - 2 * k - side)));
    }
  }

  /** Where each cell stands: pairs of columns from the right, column 6 left out, two cells a row,
      the first pair upwards and then in turn. */
  lemma OrderAt(size: nat, r: nat, c: nat)
    requires size >= 7 && size % 2 == 1 && r < size && c < size && c != 6
    ensures var d := size - 1 - (if c < 6 then c + 1 else c);
            var off := if d / 2 % 2 == 0 then size - 1 - r else r;
            At(Order(size), 2 * (size * (d / 2)) + 2 * off + d % 2, (r, c))
  {
    hide OrderFrom, At;
    var d := size - 1 - (if c < 6 then c + 1 else c);
    var off := if d / 2 % 2 == 0 then size - 1 - r else r;
    OrderFromAt(size, size - 1, true, d / 2, off, d % 2);
  }

  lemma {:induction false} FreeCells(order: seq<Cell>, mask: Mask)
    ensures forall x :: x in Free(order, mask) <==> x in order && !mask(x)
    ensures Distinct(order) ==> Distinct(Free(order, mask))
  {
    if order != [] {
      FreeCells(order[1..], mask);
      assert order == [order[0]] + order[1..];
    }
  }

  lemma {:induction false} FreeConcat(a: seq<Cell>, b: seq<Cell>, mask: Mask)
    ensures Free(a + b, mask) == Free(a, mask) + Free(b, mask)
  {
    if a == [] {
      assert a + b == b;
    } else {
      assert (a + b)[1..] == a[1..] + b;
      FreeConcat(a[1..], b, mask);
    }
  }

  // ---- placement ------------------------------------------------------------------------

  function BitAt(bits: seq<Bit>, i: nat): Bit {
    if i < |bits| then bits[i] else 0
  }

  function Min(a: nat, b: nat): nat {
    if a <= b then a else b
  }

  /** The arrays are squares of the same size, and the flags say what the mask says. */
  ghost predicate Square(matrix: array2<Module>, reserved: array2<bool>, mask: Mask)
    reads reserved
  {
    && matrix.Length0 == matrix.Length1 == reserved.Length0 == reserved.Length1
    && forall r, c :: 0 <= r < reserved.Length0 && 0 <= c < reserved.Length1 ==> (reserved[r, c] <==> mask((r, c)))
  }

  /** The cells hold the bits, in order, and zeros after the last bit. */
  ghost predicate Holds(matrix: array2<Module>, cells: seq<Cell>, bits: seq<Bit>)
    reads matrix
  {
    forall i :: 0 <= i < |cells| ==>
      && cells[i].0 < matrix.Length0 && cells[i].1 < matrix.Length1
      && matrix[cells[i].0, cells[i].1] == Set(BitAt(bits, i))
  }

  twostate predicate KeepsReserved(matrix: array2<Module>, mask: Mask)
    reads matrix
  {
    forall r, c :: 0 <= r < matrix.Length0 && 0 <= c < matrix.Length1 && mask((r, c)) ==>
      matrix[r, c] == old(matrix[r, c])
  }

  lemma FreeSnoc(visited: seq<Cell>, cell: Cell, mask: Mask)
    ensures Free(visited + [cell], mask) == Free(visited, mask) + if mask(cell) then [] else [cell]
  {
    FreeConcat(visited, [cell], mask);
  }

  /** The innermost statement of the loop. */
  method PlaceCell(matrix: array2<Module>, reserved: array2<bool>, ghost mask: Mask, bits: seq<Bit>, bitIdx: nat,
                   row: nat, c: nat, ghost visited: seq<Cell>)
    returns (next: nat)
    requires Square(matrix, reserved, mask) && row < matrix.Length0 && c < matrix.Length1
    requires Holds(matrix, Free(visited, mask), bits) && bitIdx == Min(|Free(visited, mask)|, |bits|)
    requires (row, c) !in visited
    modifies matrix
    ensures Holds(matrix, Free(visited + [(row, c)], mask), bits)
    ensures next == Min(|Free(visited + [(row, c)], mask)|, |bits|)
    ensures KeepsReserved(matrix, mask)
  {
    hide Free;
    FreeSnoc(visited, (row, c), mask);
    FreeCells(visited, mask);
    next := bitIdx;
    ghost var done := Free(visited, mask);
    assert forall i :: 0 <= i < |done| ==> done[i] in visited;
    if !reserved[row, c] {
      if next < |bits| {
        matrix[row, c] := Set(bits[next]);
        next := next + 1;
      } else {
        matrix[row, c] := Set(0);
      }
    }
  }

  lemma NotYet(order: seq<Cell>, visited: seq<Cell>, cell: Cell, rest: seq<Cell>)
    requires Distinct(order) && order == visited + [cell] + rest
    ensures cell !in visited
  {
    assert order[|visited|] == cell;
    assert forall i :: 0 <= i < |visited| ==> order[i] == visited[i];
  }

  /** Two cells in front of a rest, inside an order. */
  lemma TwoFirst(order: seq<Cell>, visited: seq<Cell>, x: Cell, y: Cell, rest: seq<Cell>, after: seq<Cell>)
    requires order == visited + ([x, y] + rest) + after
    ensures order == visited + [x] + ([y] + rest + after)
    ensures order == visited + [x] + [y] + (rest + after)
    ensures order == visited + [x] + [y] + rest + after
  {
    assert [x, y] == [x] + [y];
  }

  lemma PairUnfold(size: nat, c: nat, upward: bool, rowOffset: nat)
    requires c >= 1 && rowOffset < size
    ensures var row := RowAt(size, upward, rowOffset);
            PairFrom(size, c, upward, rowOffset) == [(row, c), (row, c - 1)] + PairFrom(size, c, upward, rowOffset + 1)
  {
  }

  /** The two cells of a row come next, and neither was visited before. */
  lemma PairStep(order: seq<Cell>, size: nat, c: nat, upward: bool, rowOffset: nat, visited: seq<Cell>,
                 after: seq<Cell>)
    requires c >= 1 && rowOffset < size && Distinct(order)
    requires order == visited + PairFrom(size, c, upward, rowOffset) + after
    ensures var row := RowAt(size, upward, rowOffset);
            && (row, c) !in visited && (row, c - 1) !in visited + [(row, c)]
            && order == visited + [(row, c)] + [(row, c - 1)] + PairFrom(size, c, upward, rowOffset + 1) + after
  {
    hide Distinct, PairFrom, RowAt;
    var row := RowAt(size, upward, rowOffset);
    var rest := PairFrom(size, c, upward, rowOffset + 1);
    PairUnfold(size, c, upward, rowOffset);
    TwoFirst(order, visited, (row, c), (row, c - 1), rest, after);
    NotYet(order, visited, (row, c), [(row, c - 1)] + rest + after);
    NotYet(order, visited + [(row, c)], (row, c - 1), rest + after);
  }

  lemma PairEnds(size: nat, c: nat, upward: bool, a: seq<Cell>, b: seq<Cell>, after: seq<Cell>)
    requires c >= 1 && a + PairFrom(size, c, upward, size) + after == b + after
    ensures a == b
  {
    assert a + after == b + after;
    assert |a| == |b|;
    assert (a + after)[..|a|] == a && (b + after)[..|b|] == b;
  }

  /** One column pair. */
  method PlacePair(matrix: array2<Module>, reserved: array2<bool>, ghost mask: Mask, bits: seq<Bit>, bitIdx: nat,
                   c: nat, upward: bool, ghost before: seq<Cell>, ghost after: seq<Cell>)
    returns (next: nat)
    requires Square(matrix, reserved, mask) && 1 <= c < matrix.Length1
    requires Holds(matrix, Free(before, mask), bits) && bitIdx == Min(|Free(before, mask)|, |bits|)
    requires Distinct(before + PairFrom(matrix.Length0, c, upward, 0) + after)
    modifies matrix
    ensures Holds(matrix, Free(before + PairFrom(matrix.Length0, c, upward, 0), mask), bits)
    ensures next == Min(|Free(before + PairFrom(matrix.Length0, c, upward, 0), mask)|, |bits|)
    ensures KeepsReserved(matrix, mask)
  {
    hide Free, Holds, Distinct, PairFrom, Square, RowAt;
    var size := matrix.Length0;
    ghost var order := before + PairFrom(size, c, upward, 0) + after;
    ghost var visited := before;
    next := bitIdx;
    for rowOffset := 0 to size
      invariant Square(matrix, reserved, mask)
      invariant visited + PairFrom(size, c, upward, rowOffset) + after == order
      invariant Holds(matrix, Free(visited, mask), bits) && next == Min(|Free(visited, mask)|, |bits|)
      invariant KeepsReserved(matrix, mask)
    {
      PairStep(order, size, c, upward, rowOffset, visited, after);
      next := PlaceRow(matrix, reserved, mask, bits, next, RowAt(size, upward, rowOffset), c, visited);
      visited := visited + [(RowAt(size, upward, rowOffset), c)] + [(RowAt(size, upward, rowOffset), c - 1)];
    }
    PairEnds(size, c, upward, visited, before + PairFrom(size, c, upward, 0), after);
  }

  method PlaceRow(matrix: array2<Module>, reserved: array2<bool>, ghost mask: Mask, bits: seq<Bit>, bitIdx: nat,
                  row: nat, c: nat, ghost visited: seq<Cell>)
    returns (next: nat)
    requires Square(matrix, reserved, mask) && row < matrix.Length0 && 1 <= c < matrix.Length1
    requires Holds(matrix, Free(visited, mask), bits) && bitIdx == Min(|Free(visited, mask)|, |bits|)
    requires (row, c) !in visited && (row, c - 1) !in visited + [(row, c)]
    modifies matrix
    ensures Holds(matrix, Free(visited + [(row, c)] + [(row, c - 1)], mask), bits)
    ensures next == Min(|Free(visited + [(row, c)] + [(row, c - 1)], mask)|, |bits|)
    ensures KeepsReserved(matrix, mask)
  {
    hide Free, Holds;
    next := PlaceCell(matrix, reserved, mask, bits, bitIdx, row, c, visited);
    next := PlaceCell(matrix, reserved, mask, bits, next, row, c - 1, visited + [(row, c)]);
  }

  /** The zigzag over all column pairs. */
  method PlaceBits(matrix: array2<Module>, reserved: array2<bool>, ghost mask: Mask, bits: seq<Bit>)
    requires Square(matrix, reserved, mask) && matrix.Length0 >= 7 && matrix.Length0 % 2 == 1
    modifies matrix
    ensures Holds(matrix, Free(Order(matrix.Length0), mask), bits)
    ensures KeepsReserved(matrix, mask)
  {
    hide Free, Holds, Distinct, PairFrom, OrderFrom, Square;
    var size := matrix.Length0;
    EveryColumnButSixOnce(size);
    Sides(matrix, reserved, mask);
    ghost var visited: seq<Cell> := [];
    HoldsNothing(matrix, mask, bits);
    var bitIdx: nat, upward, col := 0, true, size - 1;
    while col >= 1
      invariant col < size && Square(matrix, reserved, mask)
      invariant visited + OrderFrom(size, if col < 0 then 0 else col, upward) == Order(size)
      invariant Holds(matrix, Free(visited, mask), bits) && bitIdx == Min(|Free(visited, mask)|, |bits|)
      invariant KeepsReserved(matrix, mask)
    {
      ghost var rest := OrderFrom(size, Next(col), !upward);
      OrderStep(size, col, upward, visited);
      if col == 6 {
        col := 5;
      }
      bitIdx := PlacePair(matrix, reserved, mask, bits, bitIdx, col, upward, visited, rest);
      visited := visited + PairFrom(size, col, upward, 0);
      upward := !upward;
      col := col - 2;
    }
    OrderEnds(size, upward, visited);
  }

  lemma Sides(matrix: array2<Module>, reserved: array2<bool>, mask: Mask)
    requires Square(matrix, reserved, mask)
    ensures matrix.Length0 == matrix.Length1
  {
  }

  lemma OrderStep(size: nat, col: nat, upward: bool, visited: seq<Cell>)
    requires col >= 1
    ensures visited + OrderFrom(size, col, upward) ==
            visited + PairFrom(size, Right(col), upward, 0) + OrderFrom(size, Next(col), !upward)
  {
    hide PairFrom;
  }

  lemma OrderEnds(size: nat, upward: bool, visited: seq<Cell>)
    ensures visited + OrderFrom(size, 0, upward) == visited
  {
  }

  lemma HoldsNothing(matrix: array2<Module>, mask: Mask, bits: seq<Bit>)
    ensures Holds(matrix, Free([], mask), bits) && |Free([], mask)| == 0
  {
  }

  // ---- mask -------------------------------------------------------------------------------

  predicate Dark(r: nat, c: nat) {
    (r + c) % 2 == 0
  }

  /** Mask pattern 0. */
  function Masked(m: Module, reserved: bool, r: nat, c: nat): Module {
    if !reserved && m.Set? && Dark(r, c) then Set(1 - m.bit) else m
  }

  lemma MaskTwice(m: Module, reserved: bool, r: nat, c: nat)
    ensures Masked(Masked(m, reserved, r, c), reserved, r, c) == m
  {
  }

  method ApplyMask(matrix: array2<Module>, reserved: array2<bool>)
    requires matrix.Length0 == matrix.Length1 == reserved.Length0 == reserved.Length1
    modifies matrix
    ensures forall r, c :: 0 <= r < matrix.Length0 && 0 <= c < matrix.Length1 ==>
              matrix[r, c] == Masked(old(matrix[r, c]), reserved[r, c], r, c)
  {
    hide Masked;
    var size := matrix.Length0;
    for r := 0 to size
      invariant forall i, j :: 0 <= i < r && 0 <= j < size ==>
                  matrix[i, j] == Masked(old(matrix[i, j]), reserved[i, j], i, j)
      invariant forall i, j :: r <= i < size && 0 <= j < size ==> matrix[i, j] == old(matrix[i, j])
    {
      for c := 0 to size
        invariant forall i, j :: 0 <= i < r && 0 <= j < size ==>
                    matrix[i, j] == Masked(old(matrix[i, j]), reserved[i, j], i, j)
        invariant forall j :: 0 <= j < c ==>
                    matrix[r, j] == Masked(old(matrix[r, j]), reserved[r, j], r, j)
        invariant forall j :: c <= j < size ==> matrix[r, j] == old(matrix[r, j])
        invariant forall i, j :: r < i < size && 0 <= j < size ==> matrix[i, j] == old(matrix[i, j])
      {
        MaskCases(matrix[r, c], reserved[r, c], r, c);
        if !reserved[r, c] && matrix[r, c] != Unset {
          if (r + c) % 2 == 0 {
            matrix[r, c] := if matrix[r, c].bit == 0 then Set(1) else Set(0);
          }
        }
      }
    }
  }

  lemma MaskCases(m: Module, reserved: bool, r: nat, c: nat)
    ensures Masked(m, reserved, r, c) ==
            if !reserved && m != Unset && (r + c) % 2 == 0 then (if m.bit == 0 then Set(1) else Set(0)) else m
  {
  }

  // ---- reading back --------------------------------------------------------------------------

  /** What a reader of the finished symbol sees in a cell, with the mask undone. */
  function Seen(dark: bool, cell: Cell): Bit {
    var bit: Bit := if dark then 1 else 0;
    if Dark(cell.0, cell.1) then 1 - bit else bit
  }

  /** The reader's bits: the given cells in order. */
  ghost function ReadBack(symbol: array2<bool>, cells: seq<Cell>): (bits: seq<Bit>)
    requires forall x :: x in cells ==> x.0 < symbol.Length0 && x.1 < symbol.Length1
    reads symbol
    ensures |bits| == |cells|
  {
    if cells == [] then []
    else [Seen(symbol[cells[0].0, cells[0].1], cells[0])] + ReadBack(symbol, cells[1..])
  }

  lemma {:induction false} ReadBackAt(symbol: array2<bool>, cells: seq<Cell>, bits: seq<Bit>)
    requires |bits| == |cells|
    requires forall x :: x in cells ==> x.0 < symbol.Length0 && x.1 < symbol.Length1
    requires forall i :: 0 <= i < |cells| ==> Seen(symbol[cells[i].0, cells[i].1], cells[i]) == bits[i]
    ensures ReadBack(symbol, cells) == bits
    decreases |cells|
  {
    hide Seen;
    if cells != [] {
      ReadBackAt(symbol, cells[1..], bits[1..]);
      assert bits == [bits[0]] + bits[1..];
    }
  }
}
