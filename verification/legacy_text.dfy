/** Bitmap-font text of the first revision (`vi::gl::text` in viva.h): the
    string is walked up to its terminator, newlines take no slot, each other
    character fills the next sprite slot, and slots the previous, longer
    string used are switched to the invisible texture. */
module LegacyTexts {
  import opened Base
  import opened LegacySprites
  import opened Texts

  /** The first revision's font refers to its texture by registry index. */
  datatype LegacyFont = LegacyFont(textureIndex: nat, uv: seq<Uv>)

  /** `last` is the slot just past the previous string's glyphs, or absent
      before the first update. */
  datatype LegacyText = LegacyText(font: LegacyFont, str: seq<char>,
                                   horizontalSpace: real, verticalSpace: real,
                                   last: Option<nat>)

  /** Index of the terminator. */
  function Length(str: seq<char>): nat
  {
    Extent(str, |str|)
  }

  /** The terminator is at `Length` and nowhere before it. */
  lemma Terminated(str: seq<char>)
    ensures CharAt(str, Length(str)) == NUL
    ensures forall j :: 0 <= j < Length(str) ==> CharAt(str, j) != NUL
  {
  }

  /** Glyph characters (not newlines) among the first `i`: the slot the
      character at `i` goes to, when it is a glyph. */
  function Glyphs(str: seq<char>, i: nat): nat
    decreases i
  {
    if i == 0 then 0 else Glyphs(str, i - 1) + (if CharAt(str, i - 1) == NEWLINE then 0 else 1)
  }

  /** Number of slots the string fills. */
  function Filled(str: seq<char>): nat
  {
    Glyphs(str, Length(str))
  }

  predicate LegacyPrintable(t: LegacyText)
  {
    forall i :: 0 <= i < Length(t.str) && CharAt(t.str, i) != NEWLINE ==>
      32 <= CharAt(t.str, i) as int < 128
  }

  /** The walk reads slot 0, writes one slot per glyph and blanks up to the
      previous end, all inside the caller's sprite array. */
  predicate Fits(t: LegacyText, s: seq<LegacySprite>)
  {
    && 0 < |s|
    && Filled(t.str) <= |s|
    && (t.last.Some? ==> t.last.value <= |s|)
  }

  /** The slot that receives the glyph at character `i`: the glyph's UV, the
      font's texture, the pen position, and slot 0's scale and origin. */
  function Placed(t: LegacyText, s0: LegacySprite, sj: LegacySprite, i: nat): LegacySprite
    requires |t.font.uv| == FONT_GLYPHS && 32 <= CharAt(t.str, i) as int < 128
  {
    var p := Pen(t.str, s0.x, s0.y, s0.sx + t.horizontalSpace, s0.sy + t.verticalSpace, i);
    sj.(uv := t.font.uv[CharAt(t.str, i) as int - 32], x := p.0, y := p.1,
        textureIndex := t.font.textureIndex,
        sx := s0.sx, sy := s0.sy, ox := s0.ox, oy := s0.oy)
  }

  /** A slot past the new string: invisible if the previous string reached
      it, untouched otherwise. */
  function Blanked(t: LegacyText, sj: LegacySprite, j: nat): LegacySprite
  {
    if t.last.Some? && j < t.last.value then sj.(textureIndex := TEXTURE_INVISIBLE) else sj
  }

  lemma {:induction false} GlyphsMonotone(str: seq<char>, i: nat, j: nat)
    requires i <= j
    ensures Glyphs(str, i) <= Glyphs(str, j)
    decreases j - i
  {
    if i < j {
      GlyphsMonotone(str, i, j - 1);
    }
  }

  /** `text::update` (first revision). Every glyph of the string lands in the
      slot numbered by the glyphs before it; the slots the string fills all
      show the font's texture; past them, the slots up to the previous end are
      made invisible and the rest are left alone. The recorded end is where
      the slot pointer stops, which is past the previous end when the
      previous string was longer: the end never moves back. */
  method Update(t: LegacyText, s: seq<LegacySprite>) returns (t2: LegacyText, r: seq<LegacySprite>)
    requires |t.font.uv| == FONT_GLYPHS && LegacyPrintable(t) && Fits(t, s)
    ensures |r| == |s|
    ensures t2.last.Some? && t2 == t.(last := t2.last)
    ensures Filled(t.str) <= t2.last.value <= |s|
    ensures t.last.Some? ==> t.last.value <= t2.last.value
    ensures t2.last.value == Filled(t.str) || (t.last.Some? && t2.last.value == t.last.value)
    ensures forall i :: 0 <= i < Length(t.str) && CharAt(t.str, i) != NEWLINE ==>
      Glyphs(t.str, i) < |s| && r[Glyphs(t.str, i)] == Placed(t, s[0], s[Glyphs(t.str, i)], i)
    ensures forall j :: 0 <= j < Filled(t.str) ==> r[j].textureIndex == t.font.textureIndex
    ensures forall j :: Filled(t.str) <= j < |s| ==> r[j] == Blanked(t, s[j], j)
  {
    var laid, n, at := PlaceGlyphs(t, s);
    GlyphsCovered(t.str, at);
    r := laid;
    if t.last.Some? {
      r := Blank(laid, n, t.last.value);
    }
    var end := n;
    if t.last.Some? && n < t.last.value {
      end := t.last.value;
    }
    t2 := t.(last := Some(end));
  }

  /** The walk up to the terminator: glyph slots are written, newlines only
      move the pen. Returns the number of slots written and, as a ghost, the
      character each written slot shows. */
  method PlaceGlyphs(t: LegacyText, s: seq<LegacySprite>)
    returns (r: seq<LegacySprite>, n: nat, ghost at: seq<nat>)
    requires |t.font.uv| == FONT_GLYPHS && LegacyPrintable(t) && Fits(t, s)
    ensures n == Filled(t.str) && |r| == |s| && |at| == n
    ensures forall j :: 0 <= j < n ==>
      && at[j] < Length(t.str) && CharAt(t.str, at[j]) != NEWLINE && Glyphs(t.str, at[j]) == j
      && 32 <= CharAt(t.str, at[j]) as int < 128
      && r[j] == Placed(t, s[0], s[j], at[j])
    ensures forall j :: n <= j < |s| ==> r[j] == s[j]
  {
    ghost var len := Length(t.str);
    ghost var w := s[0].sx + t.horizontalSpace;
    ghost var h := s[0].sy + t.verticalSpace;
    at := [];
    Terminated(t.str);
    r := s;
    var x, y := s[0].x, s[0].y;
    var i := 0;
    n := 0;
    while CharAt(t.str, i) != NUL
      invariant 0 <= i <= len && n == Glyphs(t.str, i) && n <= |s| && |r| == |s| && |at| == n
      invariant x == Pen(t.str, s[0].x, s[0].y, w, h, i).0
      invariant y == Pen(t.str, s[0].x, s[0].y, w, h, i).1
      invariant n == 0 ==> x == s[0].x
      invariant r[0].x == s[0].x && r[0].sx == s[0].sx && r[0].sy == s[0].sy
      invariant r[0].ox == s[0].ox && r[0].oy == s[0].oy
      invariant forall j :: n <= j < |s| ==> r[j] == s[j]
      invariant Laid(t, s, r, at, i)
      decreases len - i
    {
      assert i < len;
      var c := CharAt(t.str, i);
      if c == NEWLINE {
        LaidLater(t, s, r, at, i);
        x := r[0].x;
        y := y + r[0].sy + t.verticalSpace;
      } else {
        GlyphsMonotone(t.str, i + 1, len);
        ghost var r0 := r;
        r := r[n := r[n].(uv := t.font.uv[c as int - 32], x := x, y := y,
                          textureIndex := t.font.textureIndex,
                          sx := r[0].sx, sy := r[0].sy, ox := r[0].ox, oy := r[0].oy)];
        LaidNext(t, s, r0, at, i, r[n]);
        at := at + [i];
        n := n + 1;
        x := x + r[0].sx + t.horizontalSpace;
      }
      i := i + 1;
    }
  }

  /** The first `|at|` slots hold the glyphs among the first `i`
      characters: `at[j]` is the character slot `j` shows. */
  ghost predicate Laid(t: LegacyText, s: seq<LegacySprite>, r: seq<LegacySprite>, at: seq<nat>, i: nat)
    requires |t.font.uv| == FONT_GLYPHS && |at| <= |r| && |r| == |s| && 0 < |s|
  {
    forall j :: 0 <= j < |at| ==>
      && at[j] < i && CharAt(t.str, at[j]) != NEWLINE && Glyphs(t.str, at[j]) == j
      && 32 <= CharAt(t.str, at[j]) as int < 128
      && r[j] == Placed(t, s[0], s[j], at[j])
  }

  /** A newline lays nothing. */
  lemma LaidLater(t: LegacyText, s: seq<LegacySprite>, r: seq<LegacySprite>, at: seq<nat>, i: nat)
    requires |t.font.uv| == FONT_GLYPHS && |at| <= |r| && |r| == |s| && 0 < |s|
    requires Laid(t, s, r, at, i)
    ensures Laid(t, s, r, at, i + 1)
  {
  }

  /** A glyph at character `i` laid in the next slot extends the layout. */
  lemma LaidNext(t: LegacyText, s: seq<LegacySprite>, r: seq<LegacySprite>, at: seq<nat>, i: nat, placed: LegacySprite)
    requires |t.font.uv| == FONT_GLYPHS && |at| < |r| && |r| == |s| && 0 < |s|
    requires Laid(t, s, r, at, i)
    requires CharAt(t.str, i) != NEWLINE && Glyphs(t.str, i) == |at|
    requires 32 <= CharAt(t.str, i) as int < 128
    requires placed == Placed(t, s[0], s[|at|], i)
    ensures Laid(t, s, r[|at| := placed], at + [i], i + 1)
  {
  }

  /** Glyph characters go to slots in order: an earlier glyph gets a lower
      slot, so no two glyphs share one. */
  lemma GlyphsOrder(str: seq<char>, p: nat, q: nat)
    requires CharAt(str, p) != NEWLINE
    ensures p < q ==> Glyphs(str, p) < Glyphs(str, q)
  {
    if p < q {
      GlyphsMonotone(str, p + 1, q);
    }
  }

  /** If `at` lists, slot by slot, glyph characters of the string with the
      right slot numbers, and there are as many as the string fills, then
      every glyph character of the string is listed, at its slot. */
  lemma GlyphsCovered(str: seq<char>, at: seq<nat>)
    requires |at| == Filled(str)
    requires forall j :: 0 <= j < |at| ==>
      at[j] < Length(str) && CharAt(str, at[j]) != NEWLINE && Glyphs(str, at[j]) == j
    ensures forall p :: 0 <= p < Length(str) && CharAt(str, p) != NEWLINE ==>
      Glyphs(str, p) < |at| && at[Glyphs(str, p)] == p
  {
    forall p | 0 <= p < Length(str) && CharAt(str, p) != NEWLINE
      ensures Glyphs(str, p) < |at| && at[Glyphs(str, p)] == p
    {
      GlyphsMonotone(str, p + 1, Length(str));
      var q := at[Glyphs(str, p)];
      GlyphsOrder(str, p, q);
      GlyphsOrder(str, q, p);
    }
  }

  /** The tail loop: slots from `from` up to `last` get the invisible
      texture, everything else is kept. */
  method Blank(s: seq<LegacySprite>, from: nat, last: nat) returns (r: seq<LegacySprite>)
    requires last <= |s|
    ensures |r| == |s|
    ensures forall q :: 0 <= q < |s| ==>
      r[q] == if from <= q < last then s[q].(textureIndex := TEXTURE_INVISIBLE) else s[q]
  {
    r := s;
    var j := from;
    while j < last
      invariant from <= j && (j <= last || j == from) && |r| == |s|
      invariant forall q :: 0 <= q < |s| ==>
        r[q] == if from <= q < j then s[q].(textureIndex := TEXTURE_INVISIBLE) else s[q]
    {
      r := r[j := r[j].(textureIndex := TEXTURE_INVISIBLE)];
      j := j + 1;
    }
  }

  /** The first glyph always lands on slot 0 at slot 0's x, but newlines
      before it push it down a line each: the walk moves slot 0 itself, and
      the next update starts from the moved slot. */
  lemma FirstGlyphAnchor(t: LegacyText, s0: LegacySprite, i: nat)
    requires |t.font.uv| == FONT_GLYPHS
    requires CharAt(t.str, i) != NEWLINE && 32 <= CharAt(t.str, i) as int < 128
    requires Glyphs(t.str, i) == 0
    ensures Placed(t, s0, s0, i).x == s0.x
    ensures Placed(t, s0, s0, i).y == s0.y + (Lines(t.str, i) as real) * (s0.sy + t.verticalSpace)
    ensures Lines(t.str, i) == i
  {
    PenGrid(t.str, s0.x, s0.y, s0.sx + t.horizontalSpace, s0.sy + t.verticalSpace, i);
    LeadingNewlines(t.str, i);
  }

  /** Before the first glyph every character is a newline. */
  lemma {:induction false} LeadingNewlines(str: seq<char>, i: nat)
    requires Glyphs(str, i) == 0
    ensures Lines(str, i) == i && Column(str, i) == 0
    decreases i
  {
    if i > 0 {
      GlyphsMonotone(str, i - 1, i);
      LeadingNewlines(str, i - 1);
    }
  }
}
