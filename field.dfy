/**
 * The BattleBoats battlefield (battleBoats/src/Field.c): a player's own
 * grid and the record of what is known about the opponent's grid, the
 * remaining lives of the four boats, all-or-nothing boat placement,
 * resolution of the opponent's shots, the update of one's own knowledge
 * from the result of a shot, the bit mask of boats still afloat and the
 * row-major guessing strategy.
 *
 * The grid size and the boat sizes are compile-time constants of a header
 * that is not part of this model; here they are fixed per field when it is
 * allocated (rows, cols, sizes).
 */
module Field {
  import opened Bits

  datatype Square =
    | Empty | SmallBoat | MediumBoat | LargeBoat | HugeBoat
    | Unknown | Hit | Miss | Cursor | Invalid

  /** The four boat types; UnlistedType stands for any other value of the C enum. */
  datatype BoatType = SmallType | MediumType | LargeType | HugeType | UnlistedType

  datatype Direction = East | South

  datatype GuessResult = ResultMiss | ResultHit | SmallSunk | MediumSunk | LargeSunk | HugeSunk

  predicate Listed(t: BoatType)
  {
    t != UnlistedType
  }

  /** One uint8 per boat: used both for the boat sizes and for the remaining lives. */
  datatype PerBoat = PerBoat(small: u8, medium: u8, large: u8, huge: u8)
  {
    function Of(t: BoatType): u8
      requires Listed(t)
    {
      match t
      case SmallType => small
      case MediumType => medium
      case LargeType => large
      case HugeType => huge
    }

    function With(t: BoatType, v: u8): (p: PerBoat)
      requires Listed(t)
      ensures p.Of(t) == v
      ensures forall u | Listed(u) && u != t :: p.Of(u) == Of(u)
    {
      match t
      case SmallType => this.(small := v)
      case MediumType => this.(medium := v)
      case LargeType => this.(large := v)
      case HugeType => this.(huge := v)
    }
  }

  /** The square a placed boat of type t occupies. */
  function BoatSquare(t: BoatType): Square
    requires Listed(t)
  {
    match t
    case SmallType => SmallBoat
    case MediumType => MediumBoat
    case LargeType => LargeBoat
    case HugeType => HugeBoat
  }

  /** The boat a square belongs to, UnlistedType for squares holding no boat. */
  function SquareBoat(s: Square): (t: BoatType)
    ensures Listed(t) ==> BoatSquare(t) == s
  {
    match s
    case SmallBoat => SmallType
    case MediumBoat => MediumType
    case LargeBoat => LargeType
    case HugeBoat => HugeType
    case _ => UnlistedType
  }

  lemma BoatSquareRoundTrip(t: BoatType)
    requires Listed(t)
    ensures SquareBoat(BoatSquare(t)) == t
  {
  }

  function SunkResult(t: BoatType): GuessResult
    requires Listed(t)
  {
    match t
    case SmallType => SmallSunk
    case MediumType => MediumSunk
    case LargeType => LargeSunk
    case HugeType => HugeSunk
  }

  /** The boat a SUNK result names, UnlistedType for MISS and HIT. */
  function ResultBoat(r: GuessResult): (t: BoatType)
    ensures Listed(t) ==> SunkResult(t) == r
  {
    match r
    case SmallSunk => SmallType
    case MediumSunk => MediumType
    case LargeSunk => LargeType
    case HugeSunk => HugeType
    case _ => UnlistedType
  }

  /** uint8_t decrement: 0 wraps to 255. */
  function Dec8(x: u8): u8
  {
    (x + 255) % 256
  }

  // ---------------------------------------------------------------------
  // Shots

  /** What one shot does to the attacked square and to the lives, and what is reported. */
  datatype Shot = Shot(square: Square, lives: PerBoat, result: GuessResult)

  /**
   * The effect of an opponent's shot on a square holding `prior`: water
   * becomes MISS, a boat square becomes HIT and costs that boat a life
   * (SUNK when none is left), and any other square is reported as a miss
   * and left alone.
   */
  function Attack(prior: Square, lives: PerBoat): Shot
  {
    if prior == Empty then Shot(Miss, lives, ResultMiss)
    else
      var t := SquareBoat(prior);
      if Listed(t) then
        var l := lives.With(t, Dec8(lives.Of(t)));
        Shot(Hit, l, if l.Of(t) == 0 then SunkResult(t) else ResultHit)
      else Shot(prior, lives, ResultMiss)
  }

  /** The shooter's record of the opponent's square after learning the result. */
  function KnowledgeSquare(r: GuessResult): Square
  {
    if r == ResultMiss then Empty else Hit
  }

  /** The shooter's record of the opponent's lives after learning the result. */
  function KnowledgeLives(r: GuessResult, lives: PerBoat): PerBoat
  {
    var t := ResultBoat(r);
    if Listed(t) then lives.With(t, 0) else lives
  }

  /**
   * A shot reports SUNK for a boat exactly when it takes that boat's last
   * life, and reports a hit of some kind exactly when it lands on a boat.
   */
  lemma AttackReportsSinking(prior: Square, lives: PerBoat)
    ensures var s := Attack(prior, lives);
      Listed(ResultBoat(s.result)) <==>
        (Listed(SquareBoat(prior)) && lives.Of(SquareBoat(prior)) == 1)
    ensures var s := Attack(prior, lives);
      s.result != ResultMiss <==> Listed(SquareBoat(prior))
    ensures var s := Attack(prior, lives);
      Listed(ResultBoat(s.result)) ==> ResultBoat(s.result) == SquareBoat(prior) && s.lives.Of(SquareBoat(prior)) == 0
  {
  }

  /**
   * Shooting the same square twice: the second shot finds HIT or MISS,
   * reports a miss and changes nothing.
   */
  lemma RepeatedAttackIsHarmless(prior: Square, lives: PerBoat)
    requires prior == Empty || Listed(SquareBoat(prior))
    ensures var s := Attack(prior, lives);
      Attack(s.square, s.lives) == Shot(s.square, s.lives, ResultMiss)
  {
  }

  /**
   * The shooter's knowledge mirrors the defender's grid: the recorded
   * square is HIT exactly when the shot turned a boat square into HIT, and
   * a boat the defender has just lost is recorded with no lives.
   */
  lemma KnowledgeMirrorsAttack(prior: Square, lives: PerBoat, known: PerBoat)
    requires prior == Empty || Listed(SquareBoat(prior))
    ensures var s := Attack(prior, lives);
      (KnowledgeSquare(s.result) == Hit <==> s.square == Hit)
    ensures var s := Attack(prior, lives);
      var t := ResultBoat(s.result);
      Listed(t) ==> KnowledgeLives(s.result, known).Of(t) == 0 == s.lives.Of(t)
  {
  }

  // ---------------------------------------------------------------------
  // Boat geometry

  /** Row and column of the i-th square of a boat laid from (row, col). */
  function CellRow(row: int, dir: Direction, i: int): int
  {
    row + (if dir == South then i else 0)
  }

  function CellCol(col: int, dir: Direction, i: int): int
  {
    col + (if dir == East then i else 0)
  }

  /** Is (r, c) one of the first len squares of a boat laid from (row, col)? */
  predicate OnBoat(row: int, col: int, dir: Direction, len: int, r: int, c: int)
  {
    match dir
    case East => r == row && col <= c < col + len
    case South => c == col && row <= r < row + len
  }

  lemma OnBoatCell(row: int, col: int, dir: Direction, len: int, i: int)
    requires 0 <= i < len
    ensures OnBoat(row, col, dir, len, CellRow(row, dir, i), CellCol(col, dir, i))
  {
  }

  /** The three rand() values one placement attempt consumes, in call order. */
  datatype Draw = Draw(dir: nat, row: nat, col: nat)

  datatype Placement = Placement(dir: Direction, row: int, col: int)

  /**
   * The AI's choice of direction and origin from three random draws: the
   * origin is drawn only among the positions where a boat of this length
   * ends inside the grid.
   */
  function Origin(d: Draw, len: nat, rows: nat, cols: nat): (p: Placement)
    requires 0 < rows && 0 < cols && len <= rows && len <= cols
    ensures 0 <= p.row <= rows && 0 <= p.col <= cols
    ensures forall i :: 0 <= i < len ==> CellRow(p.row, p.dir, i) < rows && CellCol(p.col, p.dir, i) < cols
  {
    var dir := if d.dir % 2 == 0 then East else South;
    var row := if dir == South then d.row % (rows - len + 1) else d.row % rows;
    var col := if dir == East then d.col % (cols - len + 1) else d.col % cols;
    Placement(dir, row, col)
  }

  // ---------------------------------------------------------------------
  // Boat status mask

  const StatusSmall: bv8 := 0x01
  const StatusMedium: bv8 := 0x02
  const StatusLarge: bv8 := 0x04
  const StatusHuge: bv8 := 0x08

  function StatusBit(t: BoatType): bv8
    requires Listed(t)
  {
    match t
    case SmallType => StatusSmall
    case MediumType => StatusMedium
    case LargeType => StatusLarge
    case HugeType => StatusHuge
  }

  /** The bits of the boats that still have lives, OR-ed together. */
  function BoatStates(lives: PerBoat): (s: bv8)
    ensures forall t | Listed(t) :: (s & StatusBit(t) != 0) <==> lives.Of(t) > 0
    ensures s & 0xF0 == 0
  {
    var s0: bv8 := 0;
    var s1 := if lives.small > 0 then s0 | StatusSmall else s0;
    var s2 := if lives.medium > 0 then s1 | StatusMedium else s1;
    var s3 := if lives.large > 0 then s2 | StatusLarge else s2;
    if lives.huge > 0 then s3 | StatusHuge else s3
  }

  /** With no boat alive the mask is 0, so the game is over exactly then. */
  lemma BoatStatesZero(lives: PerBoat)
    ensures BoatStates(lives) == 0 <==> forall t | Listed(t) :: lives.Of(t) == 0
  {
    var s := BoatStates(lives);
    assert s == 0 <==> s & StatusSmall == 0 && s & StatusMedium == 0 && s & StatusLarge == 0 && s & StatusHuge == 0;
    assert StatusBit(SmallType) == StatusSmall && StatusBit(MediumType) == StatusMedium;
    assert StatusBit(LargeType) == StatusLarge && StatusBit(HugeType) == StatusHuge;
  }

  // ---------------------------------------------------------------------

  class Field {
    const rows: nat
    const cols: nat
    const sizes: PerBoat
    const grid: array2<Square>
    var lives: PerBoat

    predicate Valid()
      reads this
    {
      grid.Length0 == rows && grid.Length1 == cols && rows < 256 && cols < 256
    }

    predicate InRange(r: int, c: int)
    {
      0 <= r < rows && 0 <= c < cols
    }

    /** The storage of a Field; its contents are set by FieldInit. */
    constructor (rows: nat, cols: nat, sizes: PerBoat)
      requires rows < 256 && cols < 256
      ensures Valid() && this.rows == rows && this.cols == cols && this.sizes == sizes
      ensures fresh(grid)
    {
      this.rows := rows;
      this.cols := cols;
      this.sizes := sizes;
      grid := new Square[rows, cols];
    }

    /** The status at (row, col), or INVALID outside the grid. */
    function GetSquareStatus(row: u8, col: u8): (s: Square)
      requires Valid()
      reads this, grid
      ensures !InRange(row, col) ==> s == Invalid
      ensures InRange(row, col) ==> s == grid[row, col]
    {
      if row >= rows || col >= cols then Invalid else grid[row, col]
    }

    /** Overwrites one in-range square and returns what it held; INVALID and no change outside. */
    method SetSquareStatus(row: u8, col: u8, p: Square) returns (prior: Square)
      requires Valid()
      modifies grid
      ensures prior == old(GetSquareStatus(row, col))
      ensures InRange(row, col) ==> GetSquareStatus(row, col) == p
      ensures forall r, c :: InRange(r, c) && (r, c) != (row as int, col as int) ==> grid[r, c] == old(grid[r, c])
      ensures !InRange(row, col) ==> unchanged(grid)
    {
      if row >= rows || col >= cols {
        return Invalid;
      }
      prior := grid[row, col];
      grid[row, col] := p;
    }

    /** Every square of the boat is inside the grid and empty. */
    ghost predicate Placeable(row: int, col: int, dir: Direction, t: BoatType)
      requires Valid()
      reads this, grid
    {
      Listed(t) &&
      forall i :: 0 <= i < sizes.Of(t) ==>
        InRange(CellRow(row, dir, i), CellCol(col, dir, i)) &&
        grid[CellRow(row, dir, i), CellCol(col, dir, i)] == Empty
    }

    /**
     * Places a boat of type t from (row, col) towards dir, all or nothing:
     * either every square is in range and empty, and then they all get the
     * boat's square and the boat's lives become its size, or nothing changes.
     */
    method AddBoat(row: u8, col: u8, dir: Direction, t: BoatType) returns (ok: bool)
      requires Valid()
      modifies this, grid
      ensures ok == old(Placeable(row, col, dir, t))
      ensures ok ==> forall r, c :: OnBoat(row, col, dir, sizes.Of(t), r, c) ==> InRange(r, c) && old(grid[r, c]) == Empty
      ensures ok ==> forall r, c :: InRange(r, c) ==>
        grid[r, c] == if OnBoat(row, col, dir, sizes.Of(t), r, c) then BoatSquare(t) else old(grid[r, c])
      ensures ok ==> lives == old(lives).With(t, sizes.Of(t))
      ensures !ok ==> unchanged(this) && unchanged(grid)
    {
      if !Listed(t) {
        return false;
      }
      var len := sizes.Of(t);
      var marker := BoatSquare(t);
      var i := 0;
      while i < len
        invariant 0 <= i <= len
        invariant forall j :: 0 <= j < i ==>
          InRange(CellRow(row, dir, j), CellCol(col, dir, j)) &&
          grid[CellRow(row, dir, j), CellCol(col, dir, j)] == Empty
      {
        var r := CellRow(row, dir, i);
        var c := CellCol(col, dir, i);
        if r >= rows || c >= cols {
          return false;
        }
        if grid[r, c] != Empty {
          return false;
        }
        i := i + 1;
      }
      assert old(Placeable(row, col, dir, t));
      forall r, c | OnBoat(row, col, dir, len, r, c)
        ensures InRange(r, c) && grid[r, c] == Empty
      {
        var j := if dir == South then r - row else c - col;
        assert CellRow(row, dir, j) == r && CellCol(col, dir, j) == c;
      }
      i := 0;
      while i < len
        invariant 0 <= i <= len
        invariant forall j :: 0 <= j < len ==> InRange(CellRow(row, dir, j), CellCol(col, dir, j))
        invariant forall r, c :: InRange(r, c) ==>
          grid[r, c] == if OnBoat(row, col, dir, i, r, c) then marker else old(grid[r, c])
        invariant lives == old(lives)
      {
        grid[CellRow(row, dir, i), CellCol(col, dir, i)] := marker;
        i := i + 1;
      }
      lives := lives.With(t, len);
      ok := true;
    }

    /**
     * Resolves the opponent's shot at (row, col): outside the grid it is a
     * miss reported as INVALID and nothing changes; inside, the square and
     * lives change as Attack says. The square's prior status is returned.
     */
    method RegisterEnemyAttack(row: u8, col: u8) returns (prior: Square, result: GuessResult)
      requires Valid()
      modifies this, grid
      ensures !InRange(row, col) ==> prior == Invalid && result == ResultMiss && unchanged(this) && unchanged(grid)
      ensures InRange(row, col) ==>
        prior == old(grid[row, col]) &&
        var s := Attack(prior, old(lives));
        grid[row, col] == s.square && lives == s.lives && result == s.result
      ensures forall r, c :: InRange(r, c) && (r, c) != (row as int, col as int) ==> grid[r, c] == old(grid[r, c])
    {
      if row >= rows || col >= cols {
        return Invalid, ResultMiss;
      }
      prior := grid[row, col];
      var t := SquareBoat(prior);
      if prior == Empty {
        grid[row, col] := Miss;
        result := ResultMiss;
      } else if Listed(t) {
        grid[row, col] := Hit;
        lives := lives.With(t, Dec8(lives.Of(t)));
        result := if lives.Of(t) == 0 then SunkResult(t) else ResultHit;
      } else {
        result := ResultMiss;
      }
    }

    /**
     * Records the result of one's own shot at (row, col) on the opponent's
     * field and returns the square's previous status. The coordinates are
     * not checked, so they must be in range.
     */
    method UpdateKnowledge(row: u8, col: u8, result: GuessResult) returns (prior: Square)
      requires Valid() && InRange(row, col)
      modifies this, grid
      ensures prior == old(grid[row, col])
      ensures grid[row, col] == KnowledgeSquare(result)
      ensures lives == KnowledgeLives(result, old(lives))
      ensures forall r, c :: InRange(r, c) && (r, c) != (row as int, col as int) ==> grid[r, c] == old(grid[r, c])
    {
      prior := grid[row, col];
      var t := ResultBoat(result);
      if result == ResultMiss {
        grid[row, col] := Empty;
      } else {
        grid[row, col] := Hit;
        if Listed(t) {
          lives := lives.With(t, 0);
        }
      }
    }

    /** FieldGetBoatStates: the mask of the boats still afloat. */
    function GetBoatStates(): (s: bv8)
      reads this
      ensures forall t | Listed(t) :: (s & StatusBit(t) != 0) <==> lives.Of(t) > 0
    {
      BoatStates(lives)
    }

    /** No square strictly before (row, col) in row-major order is UNKNOWN. */
    ghost predicate NoUnknownBefore(row: int, col: int)
      requires Valid()
      reads this, grid
    {
      forall r, c :: InRange(r, c) && (r < row || (r == row && c < col)) ==> grid[r, c] != Unknown
    }

    ghost predicate HasUnknown()
      requires Valid()
      reads this, grid
    {
      exists r, c :: InRange(r, c) && grid[r, c] == Unknown
    }

    /**
     * The AI's next shot: the first UNKNOWN square in row-major order, or
     * (0xFF, 0xFF) when every square has been resolved.
     */
    method AIDecideGuess() returns (row: u8, col: u8)
      requires Valid()
      ensures HasUnknown() ==> InRange(row, col) && grid[row, col] == Unknown && NoUnknownBefore(row, col)
      ensures !HasUnknown() ==> row == 0xFF && col == 0xFF
    {
      var r := 0;
      while r < rows
        invariant 0 <= r <= rows
        invariant NoUnknownBefore(r, 0)
      {
        var c := 0;
        while c < cols
          invariant 0 <= c <= cols
          invariant NoUnknownBefore(r, c)
        {
          if grid[r, c] == Unknown {
            return r, c;
          }
          c := c + 1;
        }
        r := r + 1;
      }
      return 0xFF, 0xFF;
    }

    /**
     * Places the four boats at random, retrying each one until AddBoat
     * accepts it. The random values are the input draws, consumed in order;
     * running out of draws stops the search (ok false), where the source
     * would keep drawing.
     */
    /** Boat t lies whole on the grid from placement p: every one of its squares is in range and holds its marker. */
    ghost predicate LaidAt(t: BoatType, p: Placement)
      requires Valid() && Listed(t)
      reads this, grid
    {
      forall r, c :: OnBoat(p.row, p.col, p.dir, sizes.Of(t), r, c) ==> InRange(r, c) && grid[r, c] == BoatSquare(t)
    }

    /**
     * One placement attempt of AIPlaceAllBoats: AddBoat at p. Only EMPTY
     * squares are written, so every boat already laid stays where it was.
     */
    method TryPlace(p: Placement, t: BoatType) returns (placed: bool)
      requires Valid() && Listed(t) && 0 <= p.row < 0x100 && 0 <= p.col < 0x100
      modifies this, grid
      ensures placed ==> lives == old(lives).With(t, sizes.Of(t)) && LaidAt(t, p)
      ensures !placed ==> unchanged(this) && unchanged(grid)
      ensures forall r, c :: InRange(r, c) && old(grid[r, c]) != Empty ==> grid[r, c] == old(grid[r, c])
      ensures forall r, c :: InRange(r, c) && grid[r, c] != old(grid[r, c]) ==> grid[r, c] == BoatSquare(t)
      ensures forall u, q | Listed(u) && old(LaidAt(u, q)) :: LaidAt(u, q)
    {
      placed := AddBoat(p.row as u8, p.col as u8, p.dir, t);
      forall u, q | Listed(u) && old(LaidAt(u, q))
        ensures LaidAt(u, q)
      {
        forall r, c | OnBoat(q.row, q.col, q.dir, sizes.Of(u), r, c)
          ensures InRange(r, c) && grid[r, c] == BoatSquare(u)
        {
          assert old(grid[r, c]) == BoatSquare(u) != Empty;
        }
      }
    }

    /**
     * The retry loop for one boat: the draws from index k0 on are tried in
     * order until AddBoat accepts one or they run out.
     */
    method PlaceBoat(t: BoatType, draws: seq<Draw>, k0: nat) returns (placed: bool, k: nat, ghost spot: Placement)
      requires Valid() && Listed(t) && 0 < rows && 0 < cols && sizes.Of(t) <= rows && sizes.Of(t) <= cols
      requires k0 <= |draws|
      modifies this, grid
      ensures k0 <= k <= |draws| && (!placed ==> k == |draws|)
      ensures placed ==> lives == old(lives).With(t, sizes.Of(t)) && LaidAt(t, spot)
      ensures !placed ==> lives == old(lives)
      ensures forall r, c :: InRange(r, c) && old(grid[r, c]) != Empty ==> grid[r, c] == old(grid[r, c])
      ensures forall r, c :: InRange(r, c) && grid[r, c] != old(grid[r, c]) ==> grid[r, c] == BoatSquare(t)
      ensures forall u, q | Listed(u) && old(LaidAt(u, q)) :: LaidAt(u, q)
    {
      k := k0;
      placed := false;
      spot := Placement(East, 0, 0);
      while !placed && k < |draws|
        invariant k0 <= k <= |draws|
        invariant placed ==> lives == old(lives).With(t, sizes.Of(t)) && LaidAt(t, spot)
        invariant !placed ==> lives == old(lives)
        invariant forall r, c :: InRange(r, c) && old(grid[r, c]) != Empty ==> grid[r, c] == old(grid[r, c])
        invariant forall r, c :: InRange(r, c) && grid[r, c] != old(grid[r, c]) ==> grid[r, c] == BoatSquare(t)
        invariant forall u, q | Listed(u) && old(LaidAt(u, q)) :: LaidAt(u, q)
        decreases |draws| - k
      {
        var p := Origin(draws[k], sizes.Of(t), rows, cols);
        k := k + 1;
        placed := TryPlace(p, t);
        spot := p;
      }
    }

    method AIPlaceAllBoats(draws: seq<Draw>) returns (ok: bool, ghost spots: seq<Placement>)
      requires Valid() && 0 < rows && 0 < cols
      requires forall t | Listed(t) :: sizes.Of(t) <= rows && sizes.Of(t) <= cols
      modifies this, grid
      ensures ok ==> forall t | Listed(t) :: lives.Of(t) == sizes.Of(t)
      ensures ok ==> (|spots| == 4 && LaidAt(SmallType, spots[0]) && LaidAt(MediumType, spots[1]) &&
                      LaidAt(LargeType, spots[2]) && LaidAt(HugeType, spots[3]))
      ensures forall r, c :: InRange(r, c) && old(grid[r, c]) != Empty ==> grid[r, c] == old(grid[r, c])
      ensures forall r, c :: InRange(r, c) && grid[r, c] != old(grid[r, c]) ==> Listed(SquareBoat(grid[r, c]))
    {
      var types := [SmallType, MediumType, LargeType, HugeType];
      var k := 0;
      var i := 0;
      spots := [];
      while i < 4
        invariant 0 <= i <= 4 && 0 <= k <= |draws|
        invariant forall j :: 0 <= j < i ==> lives.Of(types[j]) == sizes.Of(types[j])
        invariant |spots| == i && forall j :: 0 <= j < i ==> LaidAt(types[j], spots[j])
        invariant forall r, c :: InRange(r, c) && old(grid[r, c]) != Empty ==> grid[r, c] == old(grid[r, c])
        invariant forall r, c :: InRange(r, c) && grid[r, c] != old(grid[r, c]) ==> Listed(SquareBoat(grid[r, c]))
      {
        var t := types[i];
        var placed;
        ghost var spot;
        placed, k, spot := PlaceBoat(t, draws, k);
        if !placed {
          return false, spots;
        }
        BoatSquareRoundTrip(t);
        spots := spots + [spot];
        i := i + 1;
      }
      assert forall t | Listed(t) :: t == types[0] || t == types[1] || t == types[2] || t == types[3];
      ok := true;
    }
  }

  /**
   * Clears one's own field to EMPTY with no lives, and marks the whole
   * opponent field UNKNOWN with every boat at full size.
   */
  method FieldInit(own: Field, opp: Field)
    requires own.Valid() && opp.Valid() && own.grid != opp.grid
    requires own.rows == opp.rows && own.cols == opp.cols
    modifies own, own.grid, opp, opp.grid
    ensures forall r, c :: own.InRange(r, c) ==> own.grid[r, c] == Empty && opp.grid[r, c] == Unknown
    ensures own.lives == PerBoat(0, 0, 0, 0)
    ensures opp.lives == opp.sizes
  {
    var row := 0;
    while row < own.rows
      invariant 0 <= row <= own.rows
      invariant forall r, c :: 0 <= r < row && 0 <= c < own.cols ==> own.grid[r, c] == Empty && opp.grid[r, c] == Unknown
    {
      var col := 0;
      while col < own.cols
        invariant 0 <= col <= own.cols
        invariant forall r, c :: 0 <= r < row && 0 <= c < own.cols ==> own.grid[r, c] == Empty && opp.grid[r, c] == Unknown
        invariant forall c :: 0 <= c < col ==> own.grid[row, c] == Empty && opp.grid[row, c] == Unknown
      {
        own.grid[row, col] := Empty;
        opp.grid[row, col] := Unknown;
        col := col + 1;
      }
      row := row + 1;
    }
    own.lives := PerBoat(0, 0, 0, 0);
    opp.lives := opp.sizes;
  }
}
