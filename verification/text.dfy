/** Bitmap-font text (`vi::gl::font`, `vi::gl::text` in the later revision):
    a string laid out over a fixed run of sprite slots, one slot per
    character. A newline slot is hidden and shrunk to nothing, every slot from
    the terminator on is hidden, and each other slot shows the character's
    glyph at a cursor that moves right by the first slot's width and down by
    its height. */
module Texts {
  import opened Base
  import opened Sprites

  /** A font maps every byte value to a rectangle of its atlas texture. */
  const FONT_GLYPHS: nat := 256

  const NUL: char := 0 as char
  const NEWLINE: char := '\n'

  /** The colour `text::init` gives every slot. */
  const BLACK: Color := Color(0.0, 0.0, 0.0, 1.0)

  datatype Font = Font(tex: Ptr, uv: seq<Uv>)

  predicate ValidFont(f: Font)
  {
    |f.uv| == FONT_GLYPHS
  }

  /** The text object; the sprite slots it writes are passed alongside it. */
  datatype Text = Text(font: Font, capacity: nat, str: seq<char>,
                       horizontalSpace: real, verticalSpace: real)

  /** `text::init`. With validation on, a capacity below one or a font
      without a texture is refused and nothing is written; otherwise the text
      takes the arguments with zero spacing, and each of the `capacity` slots
      is a freshly initialised sprite on the font's texture, coloured opaque
      black. */
  function Init(f: Font, capacity: nat, str: seq<char>, validate: bool)
    : (r: Option<(Text, seq<Sprite>)>)
    ensures r.None? <==> validate && (capacity < 1 || f.tex == NULL)
    ensures r.Some? ==>
      && r.value.0.font == f && r.value.0.capacity == capacity && r.value.0.str == str
      && r.value.0.horizontalSpace == 0.0 && r.value.0.verticalSpace == 0.0
      && |r.value.1| == capacity
    ensures r.Some? ==> forall i :: 0 <= i < capacity ==>
      r.value.1[i].col == BLACK && r.value.1[i].(col := WHITE) == Sprites.Init(f.tex)
  {
    if validate && (capacity < 1 || f.tex == NULL) then None
    else Some((Text(f, capacity, str, 0.0, 0.0), seq(capacity, _ => Sprites.Init(f.tex).(col := BLACK))))
  }

  /** The character the walk reads at index `i`: past the end of the
      sequence the string is terminated. */
  function CharAt(str: seq<char>, i: nat): char
  {
    if i < |str| then str[i] else NUL
  }

  /** The first index at or after `i` that holds the terminator, or the
      capacity when no terminator comes first. */
  function ExtentFrom(str: seq<char>, capacity: nat, i: nat): (k: nat)
    requires i <= capacity
    ensures i <= k <= capacity
    ensures forall j :: i <= j < k ==> CharAt(str, j) != NUL
    ensures k < capacity ==> CharAt(str, k) == NUL
    decreases capacity - i
  {
    if i == capacity || CharAt(str, i) == NUL then i else ExtentFrom(str, capacity, i + 1)
  }

  /** `k`: the number of slots the string occupies. */
  function Extent(str: seq<char>, capacity: nat): nat
  {
    ExtentFrom(str, capacity, 0)
  }

  /** Every character that becomes a glyph indexes the font's table: the
      engine subtracts ' ' from a signed `char`, so only ' ' .. 0x7f are
      meaningful. */
  predicate Printable(t: Text)
  {
    forall i :: 0 <= i < Extent(t.str, t.capacity) && CharAt(t.str, i) != NEWLINE ==>
      32 <= CharAt(t.str, i) as int < 128
  }

  function Glyph(f: Font, c: char): Uv
    requires ValidFont(f) && 32 <= c as int < 128
  {
    f.uv[c as int - 32]
  }

  /** The cursor before slot `i`, where `s0` is slot 0 before the walk and
      `b` is slot 0 after it. A newline goes back to slot 0's x and down by
      slot 0's height plus the line spacing; any other character moves right
      by slot 0's width plus the letter spacing. While slot 0 itself is being
      laid out, a newline still sees it as it was. */
  function Cursor(t: Text, s0: Sprite, b: Sprite, i: nat): (real, real)
    decreases i
  {
    if i == 0 then (s0.x, s0.y)
    else
      var p := Cursor(t, s0, b, i - 1);
      var a := if i - 1 == 0 then s0 else b;
      if CharAt(t.str, i - 1) == NEWLINE then (a.x, p.1 + a.sy + t.verticalSpace)
      else (p.0 + b.sx + t.horizontalSpace, p.1)
  }

  /** Slot `i` after the walk, from its old value `si`. */
  function LaidOut(t: Text, s0: Sprite, b: Sprite, si: Sprite, i: nat): Sprite
    requires ValidFont(t.font) && Printable(t)
  {
    if i >= Extent(t.str, t.capacity) then si.(nodraw := true)
    else if CharAt(t.str, i) == NEWLINE then si.(nodraw := true, sx := 0.0, sy := 0.0)
    else
      var (x, y) := Cursor(t, s0, b, i);
      si.(uv := Glyph(t.font, CharAt(t.str, i)), x := x, y := y,
          sx := b.sx, sy := b.sy, ox := b.ox, oy := b.oy, nodraw := false)
  }

  /** Slot 0 after the walk: it is laid out against itself. */
  function Anchor(t: Text, s0: Sprite): Sprite
    requires ValidFont(t.font) && Printable(t)
  {
    LaidOut(t, s0, s0, s0, 0)
  }

  /** Reference layout of all slots at once. */
  function Layout(t: Text, s: seq<Sprite>): (r: seq<Sprite>)
    requires ValidFont(t.font) && Printable(t)
    ensures |r| == |s|
  {
    if |s| == 0 then s
    else
      var b := Anchor(t, s[0]);
      seq(|s|, i requires 0 <= i < |s| => if i == 0 then b else LaidOut(t, s[0], b, s[i], i))
  }

  /** `text::update`: one pass over the slots with a running cursor, hiding
      everything from the terminator on. It computes the reference layout. */
  method Update(t: Text, s: seq<Sprite>) returns (r: seq<Sprite>)
    requires ValidFont(t.font) && |s| == t.capacity && Printable(t)
    ensures r == Layout(t, s)
  {
    r := s;
    if |s| == 0 {
      return;
    }
    var x, y := s[0].x, s[0].y;
    var zero := false;
    ghost var k := Extent(t.str, t.capacity);
    ghost var b := Anchor(t, s[0]);
    var i := 0;
    while i < |s|
      invariant 0 <= i <= |s| && |r| == |s|
      invariant zero <==> k < i
      invariant i <= k ==> (x, y) == Cursor(t, s[0], b, i)
      invariant i == 0 ==> r[0] == s[0]
      invariant i > 0 ==> r[0] == b
      invariant forall j :: 1 <= j < i ==> r[j] == LaidOut(t, s[0], b, s[j], j)
      invariant forall j :: i <= j < |s| ==> r[j] == s[j]
    {
      var c := CharAt(t.str, i);
      if !zero && c == NUL {
        zero := true;
      }
      if zero {
        r := r[i := r[i].(nodraw := true)];
      } else if c == NEWLINE {
        x := r[0].x;
        y := y + r[0].sy + t.verticalSpace;
        r := r[i := r[i].(nodraw := true, sx := 0.0, sy := 0.0)];
      } else {
        r := r[i := r[i].(uv := Glyph(t.font, c), x := x, y := y,
                          sx := r[0].sx, sy := r[0].sy, ox := r[0].ox, oy := r[0].oy,
                          nodraw := false)];
        x := x + r[0].sx + t.horizontalSpace;
      }
      i := i + 1;
    }
  }

  /** What the layout does to each slot, with `k` the terminator's index:
      slots from `k` on are only hidden; a newline slot is hidden with zero
      scale; every other slot is shown with its character's glyph, at the
      cursor, with slot 0's scale and origin, and keeps its depth, rotation,
      colour and texture. */
  lemma LayoutSlots(t: Text, s: seq<Sprite>, i: nat)
    requires ValidFont(t.font) && Printable(t) && i < |s|
    ensures var r := Layout(t, s); var k := Extent(t.str, t.capacity); var c := CharAt(t.str, i);
      && |r| == |s|
      && (r[i].nodraw <==> k <= i || c == NEWLINE)
      && (k <= i ==> r[i] == s[i].(nodraw := true))
      && (i < k && c == NEWLINE ==> r[i] == s[i].(nodraw := true, sx := 0.0, sy := 0.0))
      && (i < k && c != NEWLINE ==>
            && r[i].uv == Glyph(t.font, c)
            && (r[i].x, r[i].y) == Cursor(t, s[0], r[0], i)
            && r[i].sx == r[0].sx && r[i].sy == r[0].sy
            && r[i].ox == r[0].ox && r[i].oy == r[0].oy
            && r[i].z == s[i].z && r[i].rot == s[i].rot
            && r[i].col == s[i].col && r[i].t == s[i].t)
  {
  }

  /** Newlines among the first `i` characters. */
  function Lines(str: seq<char>, i: nat): nat
    decreases i
  {
    if i == 0 then 0 else Lines(str, i - 1) + (if CharAt(str, i - 1) == NEWLINE then 1 else 0)
  }

  /** Characters among the first `i` since the last newline. */
  function Column(str: seq<char>, i: nat): nat
    decreases i
  {
    if i == 0 then 0 else if CharAt(str, i - 1) == NEWLINE then 0 else Column(str, i - 1) + 1
  }

  /** A pen that starts at (`x0`, `y0`), steps right by `w` for each
      character and returns to `x0` one line height `h` lower at each
      newline; its position before character `i`. */
  function Pen(str: seq<char>, x0: real, y0: real, w: real, h: real, i: nat): (real, real)
    decreases i
  {
    if i == 0 then (x0, y0)
    else
      var p := Pen(str, x0, y0, w, h, i - 1);
      if CharAt(str, i - 1) == NEWLINE then (x0, p.1 + h) else (p.0 + w, p.1)
  }

  /** The pen stands on a grid: `Column` steps right and `Lines` steps down. */
  lemma PenGrid(str: seq<char>, x0: real, y0: real, w: real, h: real, i: nat)
    ensures Pen(str, x0, y0, w, h, i).0 == x0 + (Column(str, i) as real) * w
    ensures Pen(str, x0, y0, w, h, i).1 == y0 + (Lines(str, i) as real) * h
  {
    PenColumn(str, x0, y0, w, h, i);
    PenLine(str, x0, y0, w, h, i);
  }

  lemma {:induction false} PenColumn(str: seq<char>, x0: real, y0: real, w: real, h: real, i: nat)
    ensures Pen(str, x0, y0, w, h, i).0 == x0 + (Column(str, i) as real) * w
    decreases i
  {
    if i > 0 {
      PenColumn(str, x0, y0, w, h, i - 1);
      if CharAt(str, i - 1) != NEWLINE {
        ScaleStep(Column(str, i - 1), w);
      }
    }
  }

  lemma {:induction false} PenLine(str: seq<char>, x0: real, y0: real, w: real, h: real, i: nat)
    ensures Pen(str, x0, y0, w, h, i).1 == y0 + (Lines(str, i) as real) * h
    decreases i
  {
    if i > 0 {
      PenLine(str, x0, y0, w, h, i - 1);
      var p := Pen(str, x0, y0, w, h, i - 1);
      if CharAt(str, i - 1) == NEWLINE {
        assert Pen(str, x0, y0, w, h, i).1 == p.1 + h;
        ScaleStep(Lines(str, i - 1), h);
      } else {
        assert Pen(str, x0, y0, w, h, i).1 == p.1;
      }
    }
  }

  /** When slot 0 keeps its x and scale through the walk, the cursor is the
      pen with slot 0's advance and line height, so glyphs sit on a grid. */
  lemma {:induction false} CursorIsPen(t: Text, s0: Sprite, b: Sprite, i: nat)
    requires b.x == s0.x && b.sx == s0.sx && b.sy == s0.sy
    ensures Cursor(t, s0, b, i) ==
      Pen(t.str, s0.x, s0.y, s0.sx + t.horizontalSpace, s0.sy + t.verticalSpace, i)
    decreases i
  {
    if i > 0 {
      CursorIsPen(t, s0, b, i - 1);
    }
  }

  lemma ScaleStep(n: nat, w: real)
    ensures ((n + 1) as real) * w == (n as real) * w + w
  {
  }

  /** A string that does not start with a newline leaves slot 0 where it
      was and at its own scale, so `CursorIsPen` applies to the layout's
      cursor: each glyph sits `Column` advances right and `Lines` line
      heights down from slot 0, with advance and height taken from slot 0. */
  lemma AnchorKeepsGeometry(t: Text, s0: Sprite)
    requires ValidFont(t.font) && Printable(t)
    requires CharAt(t.str, 0) != NEWLINE
    ensures var b := Anchor(t, s0);
      b.x == s0.x && b.y == s0.y && b.sx == s0.sx && b.sy == s0.sy && b.ox == s0.ox && b.oy == s0.oy
  {
  }

  /** A string that starts with a newline zeroes slot 0's scale while the
      walk is still running, and every glyph copies that zero scale: the
      whole text collapses to nothing on screen (slots past the terminator
      are hidden anyway). */
  lemma LeadingNewlineCollapses(t: Text, s: seq<Sprite>, i: nat)
    requires ValidFont(t.font) && Printable(t) && i < |s|
    requires i < Extent(t.str, t.capacity) && CharAt(t.str, 0) == NEWLINE
    ensures Layout(t, s)[i].sx == 0.0 && Layout(t, s)[i].sy == 0.0
  {
  }
}
