/** What `Dxyn` does to the screen, stated without the drawing loops: each
    cell the sprite covers with a set bit is flipped, every other cell is
    kept, and VF ends as 1 exactly when some lit cell was switched off.
    The statements assume Vx and Vy are not VF itself (with x or y equal to
    0xF the loop re-reads a register it is changing; the model in Machine
    follows the loop, these closed forms do not describe that case). */
module DrawFacts {
  import opened Alu
  import opened Machine

  /** Column `j` of a sprite row starting at screen column `vx` lands on
      `col` exactly when `j` is the wrapped distance from `vx` to `col`
      (likewise for rows, modulo the screen height). */
  lemma Wrap(base: int, j: int, pos: int, m: int)
    requires m == SCREEN_WIDTH || m == SCREEN_HEIGHT
    requires 0 <= base && 0 <= j < m && 0 <= pos < m
    ensures (base + j) % m == pos <==> (pos - base) % m == j
  {
    if m == SCREEN_WIDTH {
      assert (base + j) % 64 == pos ==> pos - base == j - 64 * ((base + j) / 64);
      assert (pos - base) % 64 == j ==> base + j == pos - 64 * ((pos - base) / 64);
    } else {
      assert (base + j) % 32 == pos ==> pos - base == j - 32 * ((base + j) / 32);
      assert (pos - base) % 32 == j ==> base + j == pos - 32 * ((pos - base) / 32);
    }
  }

  /** Screen column `col` is covered by a set bit among columns `from`..7
      of a sprite row holding `bits` drawn from column `vx`. */
  predicate ColHit(vx: Byte, bits: Byte, from: nat, col: int)
  {
    var j := (col - vx) % SCREEN_WIDTH;
    from <= j < 8 && SpriteBit(bits, j)
  }

  /** Some lit cell of the screen row `line` is hit by columns `from`..7. */
  predicate RowCollides(line: seq<bool>, vx: Byte, bits: Byte, from: nat)
    requires |line| == SCREEN_WIDTH
  {
    exists col :: 0 <= col < SCREEN_WIDTH && ColHit(vx, bits, from, col) && line[col]
  }

  /** The sprite, drawn with its top left corner at (`vx`, `vy`), covers
      screen cell (`row`, `col`) with a set bit. */
  predicate Covers(vx: Byte, vy: Byte, sprite: seq<Byte>, row: int, col: int)
  {
    var i := (row - vy) % SCREEN_HEIGHT;
    i < |sprite| && ColHit(vx, sprite[i], 0, col)
  }

  /** Some lit cell of the screen is covered by the sprite. */
  predicate Collides(g: Screen, vx: Byte, vy: Byte, sprite: seq<Byte>)
    requires IsScreen(g)
  {
    exists row, col :: 0 <= row < SCREEN_HEIGHT && 0 <= col < SCREEN_WIDTH &&
      Covers(vx, vy, sprite, row, col) && g[row][col]
  }

  /** Columns `from`..7 hit `col` iff column `from` does or columns
      `from + 1`..7 do, and not both. */
  lemma ColHitStep(vx: Byte, bits: Byte, from: nat, col: int)
    requires from < 8 && 0 <= col < SCREEN_WIDTH
    ensures ColHit(vx, bits, from, col) <==>
      (col == (vx + from) % SCREEN_WIDTH && SpriteBit(bits, from)) || ColHit(vx, bits, from + 1, col)
    ensures col == (vx + from) % SCREEN_WIDTH ==> !ColHit(vx, bits, from + 1, col)
  {
    Wrap(vx, from, col, SCREEN_WIDTH);
  }

  /** The inner drawing loop from column `from` on: the row `py` has exactly
      the hit cells flipped, the other rows and registers other than VF are
      kept, and VF becomes 1 when a hit cell was lit (else it is kept). */
  lemma {:induction false} DrawColsEffect(c: Canvas, x: Nibble, py: nat, bits: Byte, from: nat)
    requires IsCanvas(c) && x != VF && py < SCREEN_HEIGHT && from <= 8
    ensures var r := DrawCols(c, x, py, bits, from);
      && (forall row :: 0 <= row < SCREEN_HEIGHT && row != py ==> r.gfx[row] == c.gfx[row])
      && (forall col :: 0 <= col < SCREEN_WIDTH ==>
            r.gfx[py][col] == (c.gfx[py][col] != ColHit(c.v[x], bits, from, col)))
      && r.v[VF] == if RowCollides(c.gfx[py], c.v[x], bits, from) then 1 else c.v[VF]
    decreases 8 - from
  {
    var vx := c.v[x];
    var line := c.gfx[py];
    if from == 8 {
      assert !RowCollides(line, vx, bits, from);
    } else {
      var p := PlotPixel(c, x, py, bits, from);
      var px := (vx + from) % SCREEN_WIDTH;
      assert p.v[x] == vx;
      DrawColsEffect(p, x, py, bits, from + 1);
      var r := DrawCols(p, x, py, bits, from + 1);
      assert r == DrawCols(c, x, py, bits, from);
      forall col | 0 <= col < SCREEN_WIDTH
        ensures r.gfx[py][col] == (line[col] != ColHit(vx, bits, from, col))
        ensures ColHit(vx, bits, from + 1, col) ==> p.gfx[py][col] == line[col]
      {
        ColHitStep(vx, bits, from, col);
      }
      // the collision found by this column, or one found by a later column
      if RowCollides(line, vx, bits, from) {
        var col :| 0 <= col < SCREEN_WIDTH && ColHit(vx, bits, from, col) && line[col];
        ColHitStep(vx, bits, from, col);
        if !ColHit(vx, bits, from + 1, col) {
          assert col == px && SpriteBit(bits, from) && line[px];
        } else {
          assert RowCollides(p.gfx[py], vx, bits, from + 1);
        }
      } else {
        if SpriteBit(bits, from) && line[px] {
          ColHitStep(vx, bits, from, px);
          assert false;
        }
      }
    }
  }

  /** The first `rows` rows of the sprite drawn: each covered cell is
      flipped, and VF becomes 1 when a covered cell was lit. */
  lemma {:induction false} DrawRowsEffect(c: Canvas, x: Nibble, y: Nibble, sprite: seq<Byte>, rows: nat)
    requires IsCanvas(c) && x != VF && y != VF && rows <= |sprite| <= SCREEN_HEIGHT
    ensures var r := DrawRows(c, x, y, sprite, rows);
      && (forall row, col :: 0 <= row < SCREEN_HEIGHT && 0 <= col < SCREEN_WIDTH ==>
            r.gfx[row][col] == (c.gfx[row][col] != Covers(c.v[x], c.v[y], sprite[..rows], row, col)))
      && r.v[VF] == if Collides(c.gfx, c.v[x], c.v[y], sprite[..rows]) then 1 else c.v[VF]
    decreases rows
  {
    if rows == 0 {
      assert !Collides(c.gfx, c.v[x], c.v[y], sprite[..0]);
    } else {
      var k := rows - 1;
      DrawRowsEffect(c, x, y, sprite, k);
      var t := DrawRows(c, x, y, sprite, k);
      DrawRowsStep(c, x, y, sprite, k, t);
      DrawRowEffect(c, t, x, y, sprite, k);
    }
  }

  /** The inductive step of `DrawRowsEffect`: drawing sprite row k on the
      screen the first k rows left behind. */
  lemma DrawRowEffect(c: Canvas, t: Canvas, x: Nibble, y: Nibble, sprite: seq<Byte>, k: nat)
    requires IsCanvas(c) && IsCanvas(t) && x != VF && y != VF && k < |sprite| <= SCREEN_HEIGHT
    requires t.v == c.v[VF := t.v[VF]]
    requires forall row, col :: 0 <= row < SCREEN_HEIGHT && 0 <= col < SCREEN_WIDTH ==>
      t.gfx[row][col] == (c.gfx[row][col] != Covers(c.v[x], c.v[y], sprite[..k], row, col))
    requires t.v[VF] == if Collides(c.gfx, c.v[x], c.v[y], sprite[..k]) then 1 else c.v[VF]
    ensures var r := DrawCols(t, x, (t.v[y] + k) % SCREEN_HEIGHT, sprite[k], 0);
      && (forall row, col :: 0 <= row < SCREEN_HEIGHT && 0 <= col < SCREEN_WIDTH ==>
            r.gfx[row][col] == (c.gfx[row][col] != Covers(c.v[x], c.v[y], sprite[..k + 1], row, col)))
      && r.v[VF] == if Collides(c.gfx, c.v[x], c.v[y], sprite[..k + 1]) then 1 else c.v[VF]
  {
    var vx, vy := c.v[x], c.v[y];
    var py := (vy + k) % SCREEN_HEIGHT;
    var bits := sprite[k];
    DrawColsEffect(t, x, py, bits, 0);
    var r := DrawCols(t, x, py, bits, 0);
    forall row, col | 0 <= row < SCREEN_HEIGHT && 0 <= col < SCREEN_WIDTH
      ensures Covers(vx, vy, sprite[..k + 1], row, col) <==>
        Covers(vx, vy, sprite[..k], row, col) || (row == py && ColHit(vx, bits, 0, col))
      ensures row == py ==> !Covers(vx, vy, sprite[..k], row, col)
    {
      CoversStep(vx, vy, sprite, k, row, col);
    }
    forall row, col | 0 <= row < SCREEN_HEIGHT && 0 <= col < SCREEN_WIDTH
      ensures r.gfx[row][col] == (c.gfx[row][col] != Covers(vx, vy, sprite[..k + 1], row, col))
    {
      if row != py {
        assert r.gfx[row] == t.gfx[row];
      }
    }
    RowsCollide(c, t, vx, vy, sprite, k, py);
  }

  /** A cell is covered by the first k + 1 sprite rows iff it is covered by
      the first k of them or by row k, which lies on one screen row only. */
  lemma CoversStep(vx: Byte, vy: Byte, sprite: seq<Byte>, k: nat, row: int, col: int)
    requires k < |sprite| <= SCREEN_HEIGHT && 0 <= row < SCREEN_HEIGHT && 0 <= col < SCREEN_WIDTH
    ensures Covers(vx, vy, sprite[..k + 1], row, col) <==>
      Covers(vx, vy, sprite[..k], row, col) || (row == (vy + k) % SCREEN_HEIGHT && ColHit(vx, sprite[k], 0, col))
    ensures row == (vy + k) % SCREEN_HEIGHT ==> !Covers(vx, vy, sprite[..k], row, col)
  {
    Wrap(vy, k, row, SCREEN_HEIGHT);
  }

  /** The collision step of `DrawRowsEffect`: row k collides on the
      partly drawn screen `t` iff it collides on the original screen. */
  lemma RowsCollide(c: Canvas, t: Canvas, vx: Byte, vy: Byte, sprite: seq<Byte>, k: nat, py: nat)
    requires IsCanvas(c) && IsCanvas(t) && k < |sprite| <= SCREEN_HEIGHT && py == (vy + k) % SCREEN_HEIGHT
    requires forall row, col :: 0 <= row < SCREEN_HEIGHT && 0 <= col < SCREEN_WIDTH ==>
      t.gfx[row][col] == (c.gfx[row][col] != Covers(vx, vy, sprite[..k], row, col))
    requires forall row, col :: 0 <= row < SCREEN_HEIGHT && 0 <= col < SCREEN_WIDTH ==>
      (Covers(vx, vy, sprite[..k + 1], row, col) <==>
        Covers(vx, vy, sprite[..k], row, col) || (row == py && ColHit(vx, sprite[k], 0, col)))
    requires forall col :: 0 <= col < SCREEN_WIDTH ==> !Covers(vx, vy, sprite[..k], py, col)
    ensures Collides(c.gfx, vx, vy, sprite[..k + 1]) <==>
      Collides(c.gfx, vx, vy, sprite[..k]) || RowCollides(t.gfx[py], vx, sprite[k], 0)
  {
    if Collides(c.gfx, vx, vy, sprite[..k + 1]) {
      var row, col :| 0 <= row < SCREEN_HEIGHT && 0 <= col < SCREEN_WIDTH &&
        Covers(vx, vy, sprite[..k + 1], row, col) && c.gfx[row][col];
      if !Covers(vx, vy, sprite[..k], row, col) {
        assert row == py && ColHit(vx, sprite[k], 0, col) && t.gfx[py][col];
      }
    }
    if RowCollides(t.gfx[py], vx, sprite[k], 0) {
      var col :| 0 <= col < SCREEN_WIDTH && ColHit(vx, sprite[k], 0, col) && t.gfx[py][col];
      assert Covers(vx, vy, sprite[..k + 1], py, col) && c.gfx[py][col];
    }
    if Collides(c.gfx, vx, vy, sprite[..k]) {
      var row, col :| 0 <= row < SCREEN_HEIGHT && 0 <= col < SCREEN_WIDTH &&
        Covers(vx, vy, sprite[..k], row, col) && c.gfx[row][col];
      assert Covers(vx, vy, sprite[..k + 1], row, col);
    }
  }

  /** Two screens that agree cell by cell are equal. */
  lemma ScreensEqual(g: Screen, h: Screen)
    requires IsScreen(g) && IsScreen(h)
    requires forall row, col :: 0 <= row < SCREEN_HEIGHT && 0 <= col < SCREEN_WIDTH ==> g[row][col] == h[row][col]
    ensures g == h
  {
    forall row | 0 <= row < SCREEN_HEIGHT
      ensures g[row] == h[row]
    {
      assert forall col :: 0 <= col < SCREEN_WIDTH ==> g[row][col] == h[row][col];
    }
  }

  /** `Dxyn` (x, y not F): every cell the sprite at I covers with a set bit
      is flipped and no other cell changes; VF is 1 if some pixel went from
      lit to dark and 0 otherwise; the redraw flag is raised and nothing
      else changes. */
  lemma DrawFlipsCoveredCells(s: State, x: Nibble, y: Nibble, n: Nibble)
    requires WellFormed(s) && (n == 0 || s.i + n <= MEMORY_SIZE) && x != VF && y != VF
    ensures var r := Draw(s, x, y, n);
      && r == s.(v := s.v[VF := r.v[VF]], gfx := r.gfx, drawFlag := true)
      && (forall row, col :: 0 <= row < SCREEN_HEIGHT && 0 <= col < SCREEN_WIDTH ==>
            r.gfx[row][col] == (s.gfx[row][col] != Covers(s.v[x], s.v[y], SpriteAt(s.memory, s.i, n), row, col)))
      && (r.v[VF] == 1 <==>
            exists row, col :: 0 <= row < SCREEN_HEIGHT && 0 <= col < SCREEN_WIDTH && s.gfx[row][col] && !r.gfx[row][col])
      && r.v[VF] <= 1
  {
    var sprite := SpriteAt(s.memory, s.i, n);
    var c := Canvas(s.v[VF := 0], s.gfx);
    assert sprite[..n] == sprite;
    DrawRowsEffect(c, x, y, sprite, n);
    var r := Draw(s, x, y, n);
    if r.v[VF] == 1 {
      var row, col :| 0 <= row < SCREEN_HEIGHT && 0 <= col < SCREEN_WIDTH &&
        Covers(s.v[x], s.v[y], sprite, row, col) && s.gfx[row][col];
      assert !r.gfx[row][col];
    }
    if exists row, col :: 0 <= row < SCREEN_HEIGHT && 0 <= col < SCREEN_WIDTH && s.gfx[row][col] && !r.gfx[row][col] {
      var row, col :| 0 <= row < SCREEN_HEIGHT && 0 <= col < SCREEN_WIDTH && s.gfx[row][col] && !r.gfx[row][col];
      assert Covers(s.v[x], s.v[y], sprite, row, col);
    }
  }

  /** Drawing the same sprite twice at the same place restores the screen. */
  lemma DrawTwiceRestores(s: State, x: Nibble, y: Nibble, n: Nibble)
    requires WellFormed(s) && (n == 0 || s.i + n <= MEMORY_SIZE) && x != VF && y != VF
    ensures Draw(Draw(s, x, y, n), x, y, n).gfx == s.gfx
  {
    var r := Draw(s, x, y, n);
    DrawFlipsCoveredCells(s, x, y, n);
    DrawFlipsCoveredCells(r, x, y, n);
    ScreensEqual(Draw(r, x, y, n).gfx, s.gfx);
  }

  /** On a blank screen nothing collides, so VF ends as 0. */
  lemma DrawOnBlankScreen(s: State, x: Nibble, y: Nibble, n: Nibble)
    requires WellFormed(s) && (n == 0 || s.i + n <= MEMORY_SIZE) && x != VF && y != VF
    requires s.gfx == Blank()
    ensures Draw(s, x, y, n).v[VF] == 0
  {
    DrawFlipsCoveredCells(s, x, y, n);
  }

  /** The inner loop keeps VF a bit (0 or 1) once it is one. */
  lemma {:induction false} DrawColsKeepsFlagBit(c: Canvas, x: Nibble, py: nat, bits: Byte, from: nat)
    requires IsCanvas(c) && py < SCREEN_HEIGHT && from <= 8 && c.v[VF] <= 1
    ensures DrawCols(c, x, py, bits, from).v[VF] <= 1
    decreases 8 - from
  {
    if from < 8 {
      DrawColsKeepsFlagBit(PlotPixel(c, x, py, bits, from), x, py, bits, from + 1);
    }
  }

  /** The row loop keeps VF a bit as well. */
  lemma {:induction false} DrawRowsKeepsFlagBit(c: Canvas, x: Nibble, y: Nibble, sprite: seq<Byte>, rows: nat)
    requires IsCanvas(c) && rows <= |sprite| && c.v[VF] <= 1
    ensures DrawRows(c, x, y, sprite, rows).v[VF] <= 1
    decreases rows
  {
    if rows > 0 {
      var k := rows - 1;
      DrawRowsKeepsFlagBit(c, x, y, sprite, k);
      var t := DrawRows(c, x, y, sprite, k);
      var py := (t.v[y] + k) % SCREEN_HEIGHT;
      DrawRowsStep(c, x, y, sprite, k, t);
      DrawColsKeepsFlagBit(t, x, py, sprite[k], 0);
      assert DrawRows(c, x, y, sprite, k + 1) == DrawCols(t, x, py, sprite[k], 0);
    }
  }

  /** Whatever x and y are, VF is 0 or 1 after `Dxyn` (it is cleared first
      and only ever set to 1), so by `Alu.OrOfBits` OR-ing a collision bit
      into it, as the interpreter does, is the same as setting it to 1 on a
      collision, which is what `PlotPixel` does. */
  lemma DrawFlagIsBit(s: State, x: Nibble, y: Nibble, n: Nibble)
    requires WellFormed(s) && (n == 0 || s.i + n <= MEMORY_SIZE)
    ensures Draw(s, x, y, n).v[VF] <= 1
  {
    DrawRowsKeepsFlagBit(Canvas(s.v[VF := 0], s.gfx), x, y, SpriteAt(s.memory, s.i, n), n);
  }
}
