/**
 * Text rendering of internal/text/text.go: each character of a message becomes one sprite
 * that shows a cell of a font atlas of 6 rows by 7 columns, laid out left to right on rows of
 * 16 font pixels, wrapping on newlines and after a maximum number of characters.
 */
module Text {
  import opened Wrappers

  /** `fontSize` and `baseFontSize`. */
  const FontSize: real := 1.0
  const BaseFontSize: int := 16

  /** The atlas is 7 columns wide and 6 rows high. */
  const AtlasColumns: int := 7
  const AtlasRows: int := 6

  /**
   * The font table: each character's atlas cell as (column, row); a character without an
   * entry reads as missing.
   */
  function RuneToCoords(c: char): (cell: Option<(int, int)>)
    ensures cell.Some? ==> 0 <= cell.value.0 < AtlasColumns && 0 <= cell.value.1 < AtlasRows
  {
    match c
    case 'a' => Some((0, 0)) case 'b' => Some((1, 0)) case 'c' => Some((2, 0)) case 'd' => Some((3, 0)) case 'e' => Some((4, 0)) case 'f' => Some((5, 0)) case 'g' => Some((6, 0))
    case 'h' => Some((0, 1)) case 'i' => Some((1, 1)) case 'j' => Some((2, 1)) case 'k' => Some((3, 1)) case 'l' => Some((4, 1)) case 'm' => Some((5, 1)) case 'n' => Some((6, 1))
    case 'o' => Some((0, 2)) case 'p' => Some((1, 2)) case 'q' => Some((2, 2)) case 'r' => Some((3, 2)) case 's' => Some((4, 2)) case 't' => Some((5, 2)) case 'u' => Some((6, 2))
    case 'v' => Some((0, 3)) case 'w' => Some((1, 3)) case 'x' => Some((2, 3)) case 'y' => Some((3, 3)) case 'z' => Some((4, 3)) case '?' => Some((5, 3)) case '!' => Some((6, 3))
    case '1' => Some((0, 4)) case '2' => Some((1, 4)) case '3' => Some((2, 4)) case '4' => Some((3, 4)) case '5' => Some((4, 4)) case '6' => Some((5, 4)) case '7' => Some((6, 4))
    case '8' => Some((0, 5)) case '9' => Some((1, 5)) case '0' => Some((2, 5)) case '.' => Some((3, 5)) case '$' => Some((4, 5)) case '-' => Some((5, 5)) case ' ' => Some((6, 5))
    case _ => None
  }

  /**
   * `unicode.ToLower`, as far as the font table can tell: the characters whose lower case is
   * in the table are A to Z, the Kelvin sign (to 'k') and the capital I with a dot above (to
   * 'i'); every other character is in the table exactly when its lower case is.
   */
  function ToLower(c: char): (r: char)
    ensures 'a' <= r <= 'z' && r != c ==> 'A' <= c <= 'Z' || c as int == 0x212A || c as int == 0x130
    ensures RuneToCoords(r).Some? && r != c ==> 'A' <= c <= 'Z' || c as int == 0x212A || c as int == 0x130
  {
    if 'A' <= c <= 'Z' then (c as int + 32) as char
    else if c as int == 0x212A then 'k'
    else if c as int == 0x130 then 'i'
    else c
  }

  /** runeToSprite's lookup: the cell of the lower-cased character, and (0, 0) when it has none. */
  function AtlasCell(c: char): (cell: (int, int))
    ensures 0 <= cell.0 < AtlasColumns && 0 <= cell.1 < AtlasRows
    ensures RuneToCoords(ToLower(c)).None? ==> cell == (0, 0)
  {
    match RuneToCoords(ToLower(c))
    case Some(cell) => cell
    case None => (0, 0)
  }

  /** Upper and lower case share a glyph; a character outside the font shows the 'a' glyph. */
  lemma AtlasCellCases()
    ensures AtlasCell('W') == AtlasCell('w') == (1, 3)
    ensures AtlasCell('#') == AtlasCell('a') == (0, 0)
  {
  }

  /**
   * makeSprite's texture coordinates: two triangles covering the atlas cell in column `col`
   * and row `row`, as (u, v) pairs.
   */
  function TexCoords(row: int, col: int): (t: seq<real>)
    ensures |t| == 12
    ensures 0 <= col < AtlasColumns && 0 <= row < AtlasRows ==> forall k :: 0 <= k < 12 ==> 0.0 <= t[k] <= 1.0
  {
    var u0 := col as real / 7.0;
    var u1 := (col + 1) as real / 7.0;
    var v0 := row as real / 6.0;
    var v1 := (row + 1) as real / 6.0;
    [u0, v0, u0, v1, u1, v1,
     u0, v0, u1, v1, u1, v0]
  }

  /** The quad of a cell spans exactly that cell: one seventh wide, one sixth high. */
  lemma TexCoordsSpanOneCell(row: int, col: int)
    ensures var t := TexCoords(row, col);
      t[4] - t[0] == 1.0 / 7.0 && t[3] - t[1] == 1.0 / 6.0
      && t[0] == col as real / 7.0 && t[1] == row as real / 6.0
  {
  }

  /** What `sprites.CreateSprite` is given for one character. */
  datatype Glyph = Glyph(screenX: real, screenY: real, stretch: real, texCoords: seq<real>)

  /** The number of bytes the UTF-8 encoding of a character takes. */
  function RuneLen(c: char): (n: nat)
    ensures 1 <= n <= 4
    ensures (c as int < 0x80) <==> n == 1
  {
    if c as int < 0x80 then 1
    else if c as int < 0x800 then 2
    else if c as int < 0x1_0000 then 3
    else 4
  }

  /** `len(message)`: the UTF-8 length of the whole message. */
  function ByteLen(s: string): (n: nat)
    ensures n >= |s|
  {
    if s == [] then 0 else ByteLen(s[..|s| - 1]) + RuneLen(s[|s| - 1])
  }

  /** The row and column the next character goes to. */
  datatype Cursor = Cursor(row: int, col: int)

  /**
   * One character of the layout loop: a newline moves to the start of the next row; any
   * other character takes one column, and once the column count exceeds `maxCharWidth` the
   * cursor moves to the start of the next row.
   */
  function Advance(cur: Cursor, c: char, maxCharWidth: int): Cursor
  {
    if c == '\n' then Cursor(cur.row + 1, 0)
    else if cur.col + 1 > maxCharWidth then Cursor(cur.row + 1, 0)
    else Cursor(cur.row, cur.col + 1)
  }

  /** The cursor after laying out `s` from the origin. */
  function CursorAfter(s: string, maxCharWidth: int): (cur: Cursor)
    ensures cur.row >= 0 && cur.col >= 0
    ensures cur.row <= |s|
  {
    if s == [] then Cursor(0, 0)
    else Advance(CursorAfter(s[..|s| - 1], maxCharWidth), s[|s| - 1], maxCharWidth)
  }

  /**
   * Without newlines and with a limit `maxCharWidth >= 0`, rows hold `maxCharWidth + 1`
   * characters: the k-th character goes to row k / (maxCharWidth + 1), column
   * k % (maxCharWidth + 1), which is to say the cursor is the quotient and remainder of the
   * number of characters laid out so far.
   */
  lemma {:induction false} CursorWraps(s: string, maxCharWidth: int)
    requires maxCharWidth >= 0
    requires '\n' !in s
    ensures var cur := CursorAfter(s, maxCharWidth);
      cur.row * (maxCharWidth + 1) + cur.col == |s| && 0 <= cur.col <= maxCharWidth
  {
    if s != [] {
      var p := s[..|s| - 1];
      assert forall c :: c in p ==> c in s;
      CursorWraps(p, maxCharWidth);
      var cur := CursorAfter(p, maxCharWidth);
      if cur.col + 1 > maxCharWidth {
        assert (cur.row + 1) * (maxCharWidth + 1) == cur.row * (maxCharWidth + 1) + maxCharWidth + 1;
      }
    }
  }

  /** A newline always starts a fresh row. */
  lemma NewlineStartsRow(s: string, maxCharWidth: int)
    ensures CursorAfter(s + "\n", maxCharWidth) == Cursor(CursorAfter(s, maxCharWidth).row + 1, 0)
  {
    assert (s + "\n")[..|s|] == s;
  }

  /**
   * As written, the "no limit" value -1 wraps after every character: without newlines the
   * k-th character goes to row k, column 0.
   */
  lemma {:induction false} NoLimitStacksCharacters(s: string)
    requires '\n' !in s
    ensures CursorAfter(s, -1) == Cursor(|s|, 0)
  {
    if s != [] {
      var p := s[..|s| - 1];
      assert forall c :: c in p ==> c in s;
      NoLimitStacksCharacters(p);
    }
  }

  /** The layout step with -1 honoured as "no limit". */
  function AdvanceIntended(cur: Cursor, c: char, maxCharWidth: int): Cursor
  {
    if c == '\n' then Cursor(cur.row + 1, 0)
    else if maxCharWidth != -1 && cur.col + 1 > maxCharWidth then Cursor(cur.row + 1, 0)
    else Cursor(cur.row, cur.col + 1)
  }

  /** The cursor after laying out `s` with the intended step. */
  function CursorAfterIntended(s: string, maxCharWidth: int): (cur: Cursor)
    ensures cur.row >= 0 && cur.col >= 0
  {
    if s == [] then Cursor(0, 0)
    else AdvanceIntended(CursorAfterIntended(s[..|s| - 1], maxCharWidth), s[|s| - 1], maxCharWidth)
  }

  /** With -1, a line without newlines stays on row 0, one column per character. */
  lemma {:induction false} NoLimitKeepsOneRow(s: string)
    requires '\n' !in s
    ensures CursorAfterIntended(s, -1) == Cursor(0, |s|)
  {
    if s != [] {
      var p := s[..|s| - 1];
      assert forall c :: c in p ==> c in s;
      NoLimitKeepsOneRow(p);
    }
  }

  /** With any other limit the intended layout is the written one. */
  lemma {:induction false} IntendedAgreesWithLimit(s: string, maxCharWidth: int)
    requires maxCharWidth != -1
    ensures CursorAfterIntended(s, maxCharWidth) == CursorAfter(s, maxCharWidth)
  {
    if s != [] {
      IntendedAgreesWithLimit(s[..|s| - 1], maxCharWidth);
    }
  }

  /** The placement arguments of TextToSprites. */
  datatype Placement = Placement(bottomLeftX: real, bottomLeftY: real, scale: real, maxCharWidth: int)

  /** The sprite parameters for character `c` at cursor `cur`. */
  function GlyphAt(c: char, cur: Cursor, at: Placement): Glyph
  {
    var cell := AtlasCell(c);
    Glyph(at.bottomLeftX + (cur.col * BaseFontSize) as real * at.scale,
          at.bottomLeftY + (cur.row * BaseFontSize) as real * at.scale,
          FontSize * at.scale,
          TexCoords(cell.1, cell.0))
  }

  /**
   * What the k-th character leaves in the slot of its first byte: nothing for a newline or
   * when creating its sprite failed, and otherwise its sprite at the cursor the characters
   * before it leave.
   */
  function Slot(s: string, k: nat, at: Placement, failing: set<nat>): Option<Glyph>
    requires k < |s|
  {
    if s[k] == '\n' || k in failing then None
    else Some(GlyphAt(s[k], CursorAfter(s[..k], at.maxCharWidth), at))
  }

  /** A slot depends only on the characters up to its own. */
  lemma SlotPrefix(s: string, n: nat, k: nat, at: Placement, failing: set<nat>)
    requires k < n <= |s|
    ensures Slot(s[..n], k, at, failing) == Slot(s, k, at, failing)
  {
    assert s[..n][..k] == s[..k];
  }

  /** `n` empty slots. */
  function Nils(n: nat): (r: seq<Option<Glyph>>)
    ensures |r| == n && forall k :: 0 <= k < n ==> r[k] == None
  {
    seq(n, _ => None)
  }

  /**
   * The slice TextToSprites returns for `s`: one slot per byte; the slot of the first byte of
   * each character is its `Slot`, the slots of its other bytes stay empty.
   */
  function Rendered(s: string, at: Placement, failing: set<nat>): (r: seq<Option<Glyph>>)
    ensures |r| == ByteLen(s)
  {
    if s == [] then []
    else
      Rendered(s[..|s| - 1], at, failing) + [Slot(s, |s| - 1, at, failing)] + Nils(RuneLen(s[|s| - 1]) - 1)
  }

  /** Whether every character other than a newline got its sprite. */
  predicate AllCreated(s: string, failing: set<nat>)
  {
    forall k :: 0 <= k < |s| && s[k] != '\n' ==> k !in failing
  }

  /** ASCII text takes one byte per character. */
  lemma {:induction false} ByteLenAscii(s: string)
    requires forall k :: 0 <= k < |s| ==> s[k] as int < 0x80
    ensures ByteLen(s) == |s|
  {
    if s != [] {
      ByteLenAscii(s[..|s| - 1]);
    }
  }

  /** For ASCII text the slots line up with the characters, one each. */
  lemma {:induction false} RenderedAscii(s: string, at: Placement, failing: set<nat>)
    requires forall k :: 0 <= k < |s| ==> s[k] as int < 0x80
    ensures |Rendered(s, at, failing)| == |s|
    ensures forall k :: 0 <= k < |s| ==> Rendered(s, at, failing)[k] == Slot(s, k, at, failing)
  {
    ByteLenAscii(s);
    if s != [] {
      var n := |s| - 1;
      var p := s[..n];
      RenderedAscii(p, at, failing);
      assert RuneLen(s[n]) == 1;
      var r := Rendered(s, at, failing);
      assert r == Rendered(p, at, failing) + [Slot(s, n, at, failing)];
      forall k | 0 <= k < n
        ensures r[k] == Slot(s, k, at, failing)
      {
        SlotPrefix(s, n, k, at, failing);
      }
    }
  }

  /** A prefix never takes more bytes than the whole. */
  lemma {:induction false} ByteLenPrefix(s: string, n: nat)
    requires n <= |s|
    ensures ByteLen(s[..n]) <= ByteLen(s)
    decreases |s|
  {
    if n < |s| {
      assert s[..|s| - 1][..n] == s[..n];
      ByteLenPrefix(s[..|s| - 1], n);
    } else {
      assert s[..n] == s;
    }
  }

  /** One more character of the message: its slot and the empty slots of its other bytes. */
  lemma RenderedStep(s: string, j: nat, at: Placement, failing: set<nat>)
    requires j < |s|
    ensures Rendered(s[..j + 1], at, failing)
         == Rendered(s[..j], at, failing) + [Slot(s, j, at, failing)] + Nils(RuneLen(s[j]) - 1)
    ensures ByteLen(s[..j + 1]) == ByteLen(s[..j]) + RuneLen(s[j])
    ensures CursorAfter(s[..j + 1], at.maxCharWidth) == Advance(CursorAfter(s[..j], at.maxCharWidth), s[j], at.maxCharWidth)
  {
    assert s[..j + 1][..j] == s[..j];
    assert s[..j + 1][j] == s[j];
    SlotPrefix(s, j + 1, j, at, failing);
  }

  /** One more character: the sprites are all there exactly when they were before and this one's is. */
  lemma AllCreatedStep(s: string, j: nat, failing: set<nat>)
    requires j < |s|
    ensures AllCreated(s[..j + 1], failing) == (AllCreated(s[..j], failing) && (s[j] == '\n' || j !in failing))
  {
    var p := s[..j + 1];
    assert forall k :: 0 <= k < j ==> p[k] == s[..j][k];
  }

  /** Filling slot `i` of a slice whose first `i` slots are done and the rest empty. */
  lemma FillSlot(done: seq<Option<Glyph>>, x: Option<Glyph>, len: nat, rest: nat)
    requires len >= 1
    ensures (done + Nils(len + rest))[|done| := x] == done + [x] + Nils(len - 1) + Nils(rest)
  {
    var a := (done + Nils(len + rest))[|done| := x];
    var b := done + [x] + Nils(len - 1) + Nils(rest);
    assert |a| == |b|;
    forall k | 0 <= k < |a|
      ensures a[k] == b[k]
    {
      if k < |done| {
      } else if k == |done| {
      } else if k < |done| + len {
      } else {
      }
    }
  }

  /** Leaving slot `i` empty. */
  lemma SkipSlot(done: seq<Option<Glyph>>, len: nat, rest: nat)
    requires len >= 1
    ensures done + Nils(len + rest) == done + [None] + Nils(len - 1) + Nils(rest)
  {
    FillSlot(done, None, len, rest);
    assert (done + Nils(len + rest))[|done| := None] == done + Nils(len + rest);
  }

  /**
   * TextToSprites: walks the message character by character, filling the slot at each
   * character's byte offset. `failing` names the characters whose sprite creation fails.
   */
  method TextToSprites(message: string, bottomLeftX: real, bottomLeftY: real, scale: real, maxCharWidth: int,
                       failing: set<nat>) returns (textSprites: array<Option<Glyph>>, ok: bool)
    ensures fresh(textSprites)
    ensures textSprites[..] == Rendered(message, Placement(bottomLeftX, bottomLeftY, scale, maxCharWidth), failing)
    ensures ok == AllCreated(message, failing)
  {
    var at := Placement(bottomLeftX, bottomLeftY, scale, maxCharWidth);
    textSprites := new Option<Glyph>[ByteLen(message)](_ => None);
    ok := true;
    var rowCount := 0;
    var colCount := 0;
    var i := 0;
    var j := 0;
    assert message[..j] == [];
    assert textSprites[..] == Nils(ByteLen(message));
    while j < |message|
      invariant 0 <= j <= |message|
      invariant i == ByteLen(message[..j]) <= ByteLen(message)
      invariant Cursor(rowCount, colCount) == CursorAfter(message[..j], maxCharWidth)
      invariant textSprites[..] == Rendered(message[..j], at, failing) + Nils(ByteLen(message) - i)
      invariant ok == AllCreated(message[..j], failing)
    {
      var len;
      len, rowCount, colCount, ok := PlaceCharacter(textSprites, message, i, j, rowCount, colCount, ok, at, failing);
      i := i + len;
      j := j + 1;
    }
    assert message[..j] == message;
  }

  /**
   * One turn of TextToSprites' range loop: the character at index `j`, whose first byte is at
   * offset `i`, moves the cursor and, unless it is a newline, fills its slot or clears `ok`.
   */
  method PlaceCharacter(textSprites: array<Option<Glyph>>, message: string, i: nat, j: nat,
                        rowCount: int, colCount: int, ok: bool, at: Placement, failing: set<nat>)
    returns (len: nat, rowCount': int, colCount': int, ok': bool)
    requires j < |message| && i == ByteLen(message[..j]) <= ByteLen(message) && textSprites.Length == ByteLen(message)
    requires Cursor(rowCount, colCount) == CursorAfter(message[..j], at.maxCharWidth)
    requires textSprites[..] == Rendered(message[..j], at, failing) + Nils(ByteLen(message) - i)
    requires ok == AllCreated(message[..j], failing)
    modifies textSprites
    ensures i + len == ByteLen(message[..j + 1]) <= ByteLen(message)
    ensures Cursor(rowCount', colCount') == CursorAfter(message[..j + 1], at.maxCharWidth)
    ensures textSprites[..] == Rendered(message[..j + 1], at, failing) + Nils(ByteLen(message) - i - len)
    ensures ok' == AllCreated(message[..j + 1], failing)
  {
    var ch := message[j];
    ghost var done := Rendered(message[..j], at, failing);
    ghost var slot := Slot(message, j, at, failing);
    len := RuneLen(ch);
    RenderedStep(message, j, at, failing);
    AllCreatedStep(message, j, failing);
    ByteLenPrefix(message, j + 1);
    ghost var rest := ByteLen(message) - i - len;
    ok' := ok;
    rowCount', colCount' := rowCount, colCount;
    if ch == '\n' {
      SkipSlot(done, len, rest);
      rowCount' := rowCount + 1;
      colCount' := 0;
    } else {
      var glyph := GlyphAt(ch, Cursor(rowCount, colCount), at);
      if j in failing {
        SkipSlot(done, len, rest);
        ok' := false;
      } else {
        textSprites[i] := Some(glyph);
        FillSlot(done, Some(glyph), len, rest);
      }
      colCount' := colCount + 1;
      if colCount' > at.maxCharWidth {
        rowCount' := rowCount + 1;
        colCount' := 0;
      }
    }
  }
}
