/**
 The zigzag order of section A.3.6 of ITU-T T.81 as a walk over the cells of a block, and that s_zag is
 this walk.
 */
module JpegZigzag {
  import opened JpegDct

  /** A row and a column of a block. */
  datatype Cell = Cell(row: nat, column: nat)

  /**
   The next cell: up and to the right on the diagonals with an even sum, down and to the left on the
   others; at an edge of the block, on to the next diagonal.
   */
  function Next(p: Cell): Cell {
    if (p.row + p.column) % 2 == 0 then
      if p.column == 7 then Cell(p.row + 1, 7)
      else if p.row == 0 then Cell(0, p.column + 1)
      else Cell(p.row - 1, p.column + 1)
    else
      if p.row == 7 then Cell(7, p.column + 1)
      else if p.column == 0 then Cell(p.row + 1, 0)
      else Cell(p.row + 1, p.column - 1)
  }

  /** The k-th cell of the walk from the upper left corner. */
  function Walk(k: nat): Cell {
    if k == 0 then Cell(0, 0) else Next(Walk(k - 1))
  }

  function CellOf(i: nat): Cell {
    Cell(i / 8, i % 8)
  }

  /** s_zag lists the cells of the walk. */
  lemma {:induction false} ZagIsWalk(k: nat)
    requires k < 64
    ensures Walk(k) == CellOf(Zag(k))
  {
    FirstCells();
    hide Zag, CellOf, Next;
    if k > 0 {
      ZagIsWalk(k - 1);
      EntryStep(k);
    }
  }

  /** The cells on the diagonals before the one with sum `d`. */
  function Before(d: nat): nat {
    match d
    case 0 => 0 case 1 => 1 case 2 => 3 case 3 => 6 case 4 => 10 case 5 => 15 case 6 => 21 case 7 => 28
    case 8 => 36 case 9 => 43 case 10 => 49 case 11 => 54 case 12 => 58 case 13 => 61 case _ => 63
  }

  /** The place of a cell in the walk, counted over whole diagonals. */
  function Place(p: Cell): (k: nat)
    requires p.row < 8 && p.column < 8
    ensures k < 64
  {
    var d := p.row + p.column;
    Before(d) + if d < 8 then (if d % 2 == 0 then p.column else p.row)
        else (if d % 2 == 0 then 7 - p.row else 7 - p.column)
  }

  lemma FirstCells()
    ensures CellOf(Zag(0)) == Cell(0, 0) && CellOf(Zag(1)) == Cell(0, 1)
    ensures CellOf(Zag(2)) == Cell(1, 0) && CellOf(Zag(3)) == Cell(2, 0)
    ensures CellOf(Zag(4)) == Cell(1, 1) && CellOf(Zag(5)) == Cell(0, 2)
    ensures CellOf(Zag(6)) == Cell(0, 3) && CellOf(Zag(7)) == Cell(1, 2)
  {
  }

  lemma SecondCells()
    ensures CellOf(Zag(8)) == Cell(2, 1) && CellOf(Zag(9)) == Cell(3, 0)
    ensures CellOf(Zag(10)) == Cell(4, 0) && CellOf(Zag(11)) == Cell(3, 1)
    ensures CellOf(Zag(12)) == Cell(2, 2) && CellOf(Zag(13)) == Cell(1, 3)
    ensures CellOf(Zag(14)) == Cell(0, 4) && CellOf(Zag(15)) == Cell(0, 5)
  {
  }

  lemma ThirdCells()
    ensures CellOf(Zag(16)) == Cell(1, 4) && CellOf(Zag(17)) == Cell(2, 3)
    ensures CellOf(Zag(18)) == Cell(3, 2) && CellOf(Zag(19)) == Cell(4, 1)
    ensures CellOf(Zag(20)) == Cell(5, 0) && CellOf(Zag(21)) == Cell(6, 0)
    ensures CellOf(Zag(22)) == Cell(5, 1) && CellOf(Zag(23)) == Cell(4, 2)
  {
  }

  lemma FourthCells()
    ensures CellOf(Zag(24)) == Cell(3, 3) && CellOf(Zag(25)) == Cell(2, 4)
    ensures CellOf(Zag(26)) == Cell(1, 5) && CellOf(Zag(27)) == Cell(0, 6)
    ensures CellOf(Zag(28)) == Cell(0, 7) && CellOf(Zag(29)) == Cell(1, 6)
    ensures CellOf(Zag(30)) == Cell(2, 5) && CellOf(Zag(31)) == Cell(3, 4)
  {
  }

  lemma FifthCells()
    ensures CellOf(Zag(32)) == Cell(4, 3) && CellOf(Zag(33)) == Cell(5, 2)
    ensures CellOf(Zag(34)) == Cell(6, 1) && CellOf(Zag(35)) == Cell(7, 0)
    ensures CellOf(Zag(36)) == Cell(7, 1) && CellOf(Zag(37)) == Cell(6, 2)
    ensures CellOf(Zag(38)) == Cell(5, 3) && CellOf(Zag(39)) == Cell(4, 4)
  {
  }

  lemma SixthCells()
    ensures CellOf(Zag(40)) == Cell(3, 5) && CellOf(Zag(41)) == Cell(2, 6)
    ensures CellOf(Zag(42)) == Cell(1, 7) && CellOf(Zag(43)) == Cell(2, 7)
    ensures CellOf(Zag(44)) == Cell(3, 6) && CellOf(Zag(45)) == Cell(4, 5)
    ensures CellOf(Zag(46)) == Cell(5, 4) && CellOf(Zag(47)) == Cell(6, 3)
  {
  }

  lemma SeventhCells()
    ensures CellOf(Zag(48)) == Cell(7, 2) && CellOf(Zag(49)) == Cell(7, 3)
    ensures CellOf(Zag(50)) == Cell(6, 4) && CellOf(Zag(51)) == Cell(5, 5)
    ensures CellOf(Zag(52)) == Cell(4, 6) && CellOf(Zag(53)) == Cell(3, 7)
    ensures CellOf(Zag(54)) == Cell(4, 7) && CellOf(Zag(55)) == Cell(5, 6)
  {
  }

  lemma LastCells()
    ensures CellOf(Zag(56)) == Cell(6, 5) && CellOf(Zag(57)) == Cell(7, 4)
    ensures CellOf(Zag(58)) == Cell(7, 5) && CellOf(Zag(59)) == Cell(6, 6)
    ensures CellOf(Zag(60)) == Cell(5, 7) && CellOf(Zag(61)) == Cell(6, 7)
    ensures CellOf(Zag(62)) == Cell(7, 6) && CellOf(Zag(63)) == Cell(7, 7)
  {
  }

  lemma FirstSteps(k: nat)
    requires 0 < k < 8
    ensures CellOf(Zag(k)) == Next(CellOf(Zag(k - 1)))
  {
    FirstCells();
    hide Zag, CellOf;
  }

  lemma SecondSteps(k: nat)
    requires 8 <= k < 16
    ensures CellOf(Zag(k)) == Next(CellOf(Zag(k - 1)))
  {
    FirstCells();
    SecondCells();
    hide Zag, CellOf;
  }

  lemma ThirdSteps(k: nat)
    requires 16 <= k < 24
    ensures CellOf(Zag(k)) == Next(CellOf(Zag(k - 1)))
  {
    SecondCells();
    ThirdCells();
    hide Zag, CellOf;
  }

  lemma FourthSteps(k: nat)
    requires 24 <= k < 32
    ensures CellOf(Zag(k)) == Next(CellOf(Zag(k - 1)))
  {
    ThirdCells();
    FourthCells();
    hide Zag, CellOf;
  }

  lemma FifthSteps(k: nat)
    requires 32 <= k < 40
    ensures CellOf(Zag(k)) == Next(CellOf(Zag(k - 1)))
  {
    FourthCells();
    FifthCells();
    hide Zag, CellOf;
  }

  lemma SixthSteps(k: nat)
    requires 40 <= k < 48
    ensures CellOf(Zag(k)) == Next(CellOf(Zag(k - 1)))
  {
    FifthCells();
    SixthCells();
    hide Zag, CellOf;
  }

  lemma SeventhSteps(k: nat)
    requires 48 <= k < 56
    ensures CellOf(Zag(k)) == Next(CellOf(Zag(k - 1)))
  {
    SixthCells();
    SeventhCells();
    hide Zag, CellOf;
  }

  lemma LastSteps(k: nat)
    requires 56 <= k < 64
    ensures CellOf(Zag(k)) == Next(CellOf(Zag(k - 1)))
  {
    SeventhCells();
    LastCells();
    hide Zag, CellOf;
  }

  lemma EntryStep(k: nat)
    requires 0 < k < 64
    ensures CellOf(Zag(k)) == Next(CellOf(Zag(k - 1)))
  {
    hide *;
    match k / 8 {
      case 0 => FirstSteps(k);
      case 1 => SecondSteps(k);
      case 2 => ThirdSteps(k);
      case 3 => FourthSteps(k);
      case 4 => FifthSteps(k);
      case 5 => SixthSteps(k);
      case 6 => SeventhSteps(k);
      case _ => LastSteps(k);
    }
  }

  lemma FirstPlaces(k: nat)
    requires 0 <= k < 16
    ensures Place(CellOf(Zag(k))) == k
  {
    FirstCells();
    SecondCells();
    hide Zag, CellOf;
  }

  lemma SecondPlaces(k: nat)
    requires 16 <= k < 32
    ensures Place(CellOf(Zag(k))) == k
  {
    ThirdCells();
    FourthCells();
    hide Zag, CellOf;
  }

  lemma ThirdPlaces(k: nat)
    requires 32 <= k < 48
    ensures Place(CellOf(Zag(k))) == k
  {
    FifthCells();
    SixthCells();
    hide Zag, CellOf;
  }

  lemma LastPlaces(k: nat)
    requires 48 <= k < 64
    ensures Place(CellOf(Zag(k))) == k
  {
    SeventhCells();
    LastCells();
    hide Zag, CellOf;
  }

  lemma EntryPlace(k: nat)
    requires k < 64
    ensures Place(CellOf(Zag(k))) == k
  {
    hide *;
    if k < 16 {
      FirstPlaces(k);
    } else if k < 32 {
      SecondPlaces(k);
    } else if k < 48 {
      ThirdPlaces(k);
    } else {
      LastPlaces(k);
    }
  }

  lemma PlacesOfRow0()
    ensures Zag(Place(Cell(0, 0))) == 0 && Zag(Place(Cell(0, 1))) == 1 && Zag(Place(Cell(0, 2))) == 2 &&
        Zag(Place(Cell(0, 3))) == 3
    ensures Zag(Place(Cell(0, 4))) == 4 && Zag(Place(Cell(0, 5))) == 5 && Zag(Place(Cell(0, 6))) == 6 &&
        Zag(Place(Cell(0, 7))) == 7
  {
  }

  lemma PlacesOfRow1()
    ensures Zag(Place(Cell(1, 0))) == 8 && Zag(Place(Cell(1, 1))) == 9 && Zag(Place(Cell(1, 2))) == 10 &&
        Zag(Place(Cell(1, 3))) == 11
    ensures Zag(Place(Cell(1, 4))) == 12 && Zag(Place(Cell(1, 5))) == 13 && Zag(Place(Cell(1, 6))) == 14 &&
        Zag(Place(Cell(1, 7))) == 15
  {
  }

  lemma PlacesOfRow2()
    ensures Zag(Place(Cell(2, 0))) == 16 && Zag(Place(Cell(2, 1))) == 17 && Zag(Place(Cell(2, 2))) == 18 &&
        Zag(Place(Cell(2, 3))) == 19
    ensures Zag(Place(Cell(2, 4))) == 20 && Zag(Place(Cell(2, 5))) == 21 && Zag(Place(Cell(2, 6))) == 22 &&
        Zag(Place(Cell(2, 7))) == 23
  {
  }

  lemma PlacesOfRow3()
    ensures Zag(Place(Cell(3, 0))) == 24 && Zag(Place(Cell(3, 1))) == 25 && Zag(Place(Cell(3, 2))) == 26 &&
        Zag(Place(Cell(3, 3))) == 27
    ensures Zag(Place(Cell(3, 4))) == 28 && Zag(Place(Cell(3, 5))) == 29 && Zag(Place(Cell(3, 6))) == 30 &&
        Zag(Place(Cell(3, 7))) == 31
  {
  }

  lemma PlacesOfRow4()
    ensures Zag(Place(Cell(4, 0))) == 32 && Zag(Place(Cell(4, 1))) == 33 && Zag(Place(Cell(4, 2))) == 34 &&
        Zag(Place(Cell(4, 3))) == 35
    ensures Zag(Place(Cell(4, 4))) == 36 && Zag(Place(Cell(4, 5))) == 37 && Zag(Place(Cell(4, 6))) == 38 &&
        Zag(Place(Cell(4, 7))) == 39
  {
  }

  lemma PlacesOfRow5()
    ensures Zag(Place(Cell(5, 0))) == 40 && Zag(Place(Cell(5, 1))) == 41 && Zag(Place(Cell(5, 2))) == 42 &&
        Zag(Place(Cell(5, 3))) == 43
    ensures Zag(Place(Cell(5, 4))) == 44 && Zag(Place(Cell(5, 5))) == 45 && Zag(Place(Cell(5, 6))) == 46 &&
        Zag(Place(Cell(5, 7))) == 47
  {
  }

  lemma PlacesOfRow6()
    ensures Zag(Place(Cell(6, 0))) == 48 && Zag(Place(Cell(6, 1))) == 49 && Zag(Place(Cell(6, 2))) == 50 &&
        Zag(Place(Cell(6, 3))) == 51
    ensures Zag(Place(Cell(6, 4))) == 52 && Zag(Place(Cell(6, 5))) == 53 && Zag(Place(Cell(6, 6))) == 54 &&
        Zag(Place(Cell(6, 7))) == 55
  {
  }

  lemma PlacesOfRow7()
    ensures Zag(Place(Cell(7, 0))) == 56 && Zag(Place(Cell(7, 1))) == 57 && Zag(Place(Cell(7, 2))) == 58 &&
        Zag(Place(Cell(7, 3))) == 59
    ensures Zag(Place(Cell(7, 4))) == 60 && Zag(Place(Cell(7, 5))) == 61 && Zag(Place(Cell(7, 6))) == 62 &&
        Zag(Place(Cell(7, 7))) == 63
  {
  }

  lemma PlaceListed(p: Cell)
    requires p.row < 8 && p.column < 8
    ensures Zag(Place(p)) == 8 * p.row + p.column
  {
    hide *;
    match p.row {
      case 0 => PlacesOfRow0();
      case 1 => PlacesOfRow1();
      case 2 => PlacesOfRow2();
      case 3 => PlacesOfRow3();
      case 4 => PlacesOfRow4();
      case 5 => PlacesOfRow5();
      case 6 => PlacesOfRow6();
      case _ => PlacesOfRow7();
    }
  }

  /** The walk visits every cell of a block exactly once in its first 64 steps. */
  lemma WalkIsBijection(k: nat, p: Cell)
    requires k < 64 && p.row < 8 && p.column < 8
    ensures Walk(k).row < 8 && Walk(k).column < 8
    ensures Walk(k) == p <==> k == Place(p)
    ensures Place(p) < 64
  {
    PlaceListed(p);
    assert CellOf(8 * p.row + p.column) == p;
    hide Zag, Place, Walk, Next;
    EntryPlace(k);
    ZagIsWalk(k);
    ZagIsWalk(Place(p));
  }

  /** Where the walk meets a cell. */
  ghost function Met(row: nat, column: nat): (k: nat)
    requires row < 8 && column < 8
    ensures k < 64 && Walk(k) == Cell(row, column)
  {
    hide Place, Walk;
    WalkIsBijection(0, Cell(row, column));
    WalkIsBijection(Place(Cell(row, column)), Cell(row, column));
    var k: nat :| k < 64 && Walk(k) == Cell(row, column);
    k
  }

  /** That is where s_zag lists it. */
  lemma MetByZag(row: nat, column: nat)
    requires row < 8 && column < 8
    ensures Zag(Met(row, column)) == 8 * row + column
  {
    hide Walk, Zag;
    ZagIsWalk(Met(row, column));
  }
}
