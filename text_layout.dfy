/*
 * The pen walks of UiText::drawText and UiText::drawTextResizeHeight
 * (include/ui_text.h), stated as functions of the looked-up glyphs: which quad
 * each character gets and where the pen is afterwards.
 */
module TextLayout {
  import opened TextureQuads
  import opened Glyphs

  /** The wrap width and the line height, both fixed in drawTextResizeHeight. */
  const WrapWidth: real := 100.0
  const LineHeight: real := 48.0

  /** `Advance >> 6`: the advance in whole pixels. An arithmetic shift right by 6 is
      floor division by 64, which is what `/` on int computes for a positive divisor. */
  function AdvancePixels(ch: Character): (n: int)
    ensures 64 * n <= ch.advance < 64 * n + 64
  {
    ch.advance / 64
  }

  /** How far the pen moves after drawing `ch`: never backwards for a non-negative
      advance and scale, and not at all for an advance under one pixel. */
  function PenStep(ch: Character, scale: real): (d: real)
    ensures 0 <= ch.advance && 0.0 <= scale ==> 0.0 <= d
    ensures 0 <= ch.advance < 64 ==> d == 0.0
  {
    var n := AdvancePixels(ch) as real;
    assert 0.0 <= n && 0.0 <= scale ==> 0.0 <= n * scale;
    n * scale
  }

  /** The quad drawn for `ch` with the pen at (penX, penY), textured with the glyph's
      bitmap. It covers the rectangle offset from the pen by the scaled bearing, dropped
      below the baseline by the part of the bitmap under it, of the scaled bitmap size. */
  function GlyphQuad(ch: Character, penX: real, penY: real, scale: real): (q: DrawCall)
    ensures q.texture == ch.textureId
    ensures |q.vertices| == QuadVertexCount
    ensures QuadRect(q.vertices)
         == Rect(penX + (ch.bearing.x as real) * scale,
                 penY - ((ch.size.y - ch.bearing.y) as real) * scale,
                 (ch.size.x as real) * scale,
                 (ch.size.y as real) * scale)
  {
    var xpos := penX + (ch.bearing.x as real) * scale;
    var ypos := penY - ((ch.size.y - ch.bearing.y) as real) * scale;
    var w := (ch.size.x as real) * scale;
    var h := (ch.size.y as real) * scale;
    DrawCall(ch.textureId, QuadVertices(xpos, ypos, w, h))
  }

  /** Every glyph's quad is a well-formed flat textured quad. */
  lemma GlyphQuadPlacement(ch: Character, penX: real, penY: real, scale: real)
    ensures WellFormedQuad(GlyphQuad(ch, penX, penY, scale).vertices)
  {
    var q := GlyphQuad(ch, penX, penY, scale).vertices;
    QuadCharacterization(q);
  }

  /** A missing character draws an empty quad at the pen and does not move it. */
  lemma ZeroGlyphIsInvisible(penX: real, penY: real, scale: real)
    ensures PenStep(ZeroGlyph, scale) == 0.0
    ensures QuadRect(GlyphQuad(ZeroGlyph, penX, penY, scale).vertices) == Rect(penX, penY, 0.0, 0.0)
  {
  }

  // ---------------------------------------------------------------------------
  // drawText: one line, the pen only moves right.

  /** Total pen movement over a run of glyphs. */
  function PenOffset(gs: seq<Character>, scale: real): real
  {
    if gs == [] then 0.0 else PenStep(gs[0], scale) + PenOffset(gs[1..], scale)
  }

  /** The quads drawText issues for glyphs `gs` with the pen starting at penX on baseline y. */
  function LineQuads(gs: seq<Character>, penX: real, y: real, scale: real): (qs: seq<DrawCall>)
    ensures |qs| == |gs|
    ensures forall i :: 0 <= i < |qs| ==> |qs[i].vertices| == QuadVertexCount
  {
    if gs == [] then []
    else [GlyphQuad(gs[0], penX, y, scale)] + LineQuads(gs[1..], penX + PenStep(gs[0], scale), y, scale)
  }

  /** Laying out a concatenation lays out the first part, then the second from where
      the pen stopped. */
  lemma {:induction false} LineAppend(a: seq<Character>, b: seq<Character>, penX: real, y: real, scale: real)
    ensures PenOffset(a + b, scale) == PenOffset(a, scale) + PenOffset(b, scale)
    ensures LineQuads(a + b, penX, y, scale)
         == LineQuads(a, penX, y, scale) + LineQuads(b, penX + PenOffset(a, scale), y, scale)
  {
    if a != [] {
      assert (a + b)[1..] == a[1..] + b;
      LineAppend(a[1..], b, penX + PenStep(a[0], scale), y, scale);
    } else {
      assert a + b == b;
    }
  }

  /** One more glyph is drawn where the pen stopped, and moves it by its own advance. */
  lemma LineStep(gs: seq<Character>, g: Character, penX: real, y: real, scale: real)
    ensures LineQuads(gs + [g], penX, y, scale)
         == LineQuads(gs, penX, y, scale) + [GlyphQuad(g, penX + PenOffset(gs, scale), y, scale)]
    ensures PenOffset(gs + [g], scale) == PenOffset(gs, scale) + PenStep(g, scale)
  {
    LineAppend(gs, [g], penX, y, scale);
    assert [g][1..] == [];
  }

  /** The drawText loop's invariant carried over one more character: the quads and
      the pen `penX` for the first i glyphs, before and after glyph i. The draws issued
      before the loop, `drawn`, stay in front so that the clause has the loop
      invariant's `old(Drawn) + ...` shape. */
  lemma LinePrefixStep(drawn: seq<DrawCall>, gs: seq<Character>, i: nat, x: real, y: real, scale: real, penX: real)
    requires i < |gs|
    requires penX == x + PenOffset(gs[..i], scale)
    ensures drawn + LineQuads(gs[..i], x, y, scale) + [GlyphQuad(gs[i], penX, y, scale)]
         == drawn + LineQuads(gs[..i + 1], x, y, scale)
    ensures penX + PenStep(gs[i], scale) == x + PenOffset(gs[..i + 1], scale)
  {
    assert gs[..i + 1] == gs[..i] + [gs[i]];
    LineStep(gs[..i], gs[i], x, y, scale);
  }

  /** The k-th quad is the k-th glyph's, placed at the start plus the advances of the
      glyphs before it, on the unchanged baseline. */
  lemma {:induction false} LineQuadAt(gs: seq<Character>, penX: real, y: real, scale: real, k: nat)
    requires k < |gs|
    ensures LineQuads(gs, penX, y, scale)[k] == GlyphQuad(gs[k], penX + PenOffset(gs[..k], scale), y, scale)
  {
    if k > 0 {
      LineQuadAt(gs[1..], penX + PenStep(gs[0], scale), y, scale, k - 1);
      assert gs[..k][1..] == gs[1..][..k - 1];
    }
  }

  /** Advances below 64 units are below one pixel and move the pen by nothing. */
  lemma {:induction false} SubPixelAdvancesStay(gs: seq<Character>, scale: real)
    requires forall i :: 0 <= i < |gs| ==> 0 <= gs[i].advance < 64
    ensures PenOffset(gs, scale) == 0.0
  {
    if gs != [] {
      assert AdvancePixels(gs[0]) == 0;
      SubPixelAdvancesStay(gs[1..], scale);
    }
  }

  /** A run of characters missing from the table (such as the bytes of a multi-byte
      UTF-8 character) draws empty quads at one spot and leaves the pen where it was. */
  lemma MissingRunInvisible(gs: seq<Character>, penX: real, y: real, scale: real, k: nat)
    requires forall i :: 0 <= i < |gs| ==> gs[i] == ZeroGlyph
    requires k < |gs|
    ensures PenOffset(gs, scale) == 0.0
    ensures QuadRect(LineQuads(gs, penX, y, scale)[k].vertices) == Rect(penX, y, 0.0, 0.0)
  {
    SubPixelAdvancesStay(gs, scale);
    SubPixelAdvancesStay(gs[..k], scale);
    LineQuadAt(gs, penX, y, scale, k);
    ZeroGlyphIsInvisible(penX, y, scale);
  }

  // ---------------------------------------------------------------------------
  // drawTextResizeHeight: the same walk, wrapping to a new line before a glyph
  // whose left edge would pass x0 + 100.

  datatype Pen = Pen(x: real, y: real)

  /** The wrap test, made with the glyph about to be placed. */
  predicate WrapsBefore(ch: Character, x0: real, pen: Pen, scale: real)
  {
    pen.x + (ch.bearing.x as real) * scale > x0 + WrapWidth
  }

  /** Where `ch` is placed: back at x0 one line lower if the wrap test fires, else at
      the pen. Either the glyph's left edge stays within x0 + 100 or its line starts at
      x0, and the baseline stays or drops by exactly one line. */
  function PlacePen(ch: Character, x0: real, pen: Pen, scale: real): (p: Pen)
    ensures p.x + (ch.bearing.x as real) * scale <= x0 + WrapWidth || p.x == x0
    ensures p.y == pen.y || p.y == pen.y - LineHeight * scale
  {
    if WrapsBefore(ch, x0, pen, scale) then Pen(x0, pen.y - LineHeight * scale) else pen
  }

  function WrapQuads(gs: seq<Character>, x0: real, pen: Pen, scale: real): (qs: seq<DrawCall>)
    ensures |qs| == |gs|
    ensures forall i :: 0 <= i < |qs| ==> |qs[i].vertices| == QuadVertexCount
  {
    if gs == [] then []
    else
      var p := PlacePen(gs[0], x0, pen, scale);
      [GlyphQuad(gs[0], p.x, p.y, scale)] + WrapQuads(gs[1..], x0, Pen(p.x + PenStep(gs[0], scale), p.y), scale)
  }

  /** The pen (tempX, tempY) after the walk; for a non-negative scale it never ends
      above where it started. */
  function WrapEnd(gs: seq<Character>, x0: real, pen: Pen, scale: real): (e: Pen)
    ensures 0.0 <= scale ==> e.y <= pen.y
  {
    if gs == [] then pen
    else
      var p := PlacePen(gs[0], x0, pen, scale);
      WrapEnd(gs[1..], x0, Pen(p.x + PenStep(gs[0], scale), p.y), scale)
  }

  /** How many times the wrap test fired. */
  function WrapCount(gs: seq<Character>, x0: real, pen: Pen, scale: real): nat
  {
    if gs == [] then 0
    else
      var p := PlacePen(gs[0], x0, pen, scale);
      (if WrapsBefore(gs[0], x0, pen, scale) then 1 else 0)
        + WrapCount(gs[1..], x0, Pen(p.x + PenStep(gs[0], scale), p.y), scale)
  }

  /** The end pen of a concatenation is the end pen of the second part walked from
      where the first part stopped. */
  lemma {:induction false} WrapEndAppend(a: seq<Character>, b: seq<Character>, x0: real, pen: Pen, scale: real)
    ensures WrapEnd(a + b, x0, pen, scale) == WrapEnd(b, x0, WrapEnd(a, x0, pen, scale), scale)
  {
    if a != [] {
      var p := PlacePen(a[0], x0, pen, scale);
      assert (a + b)[1..] == a[1..] + b;
      WrapEndAppend(a[1..], b, x0, Pen(p.x + PenStep(a[0], scale), p.y), scale);
    } else {
      assert a + b == b;
    }
  }

  /** The quads of a concatenation are the first part's, then the second part's from
      where the first part stopped. */
  lemma {:induction false} WrapQuadsAppend(a: seq<Character>, b: seq<Character>, x0: real, pen: Pen, scale: real)
    ensures WrapQuads(a + b, x0, pen, scale)
         == WrapQuads(a, x0, pen, scale) + WrapQuads(b, x0, WrapEnd(a, x0, pen, scale), scale)
  {
    if a != [] {
      var p := PlacePen(a[0], x0, pen, scale);
      assert (a + b)[1..] == a[1..] + b;
      WrapQuadsAppend(a[1..], b, x0, Pen(p.x + PenStep(a[0], scale), p.y), scale);
    } else {
      assert a + b == b;
    }
  }

  /** The wraps of a concatenation are the first part's plus the second part's. */
  lemma {:induction false} WrapCountAppend(a: seq<Character>, b: seq<Character>, x0: real, pen: Pen, scale: real)
    ensures WrapCount(a + b, x0, pen, scale)
         == WrapCount(a, x0, pen, scale) + WrapCount(b, x0, WrapEnd(a, x0, pen, scale), scale)
  {
    if a != [] {
      var p := PlacePen(a[0], x0, pen, scale);
      assert (a + b)[1..] == a[1..] + b;
      WrapCountAppend(a[1..], b, x0, Pen(p.x + PenStep(a[0], scale), p.y), scale);
    } else {
      assert a + b == b;
    }
  }

  /** The wrapped walk over a concatenation is the walk over the first part followed by
      the walk over the second from the pen and line where the first stopped. */
  lemma WrapAppend(a: seq<Character>, b: seq<Character>, x0: real, pen: Pen, scale: real)
    ensures WrapQuads(a + b, x0, pen, scale)
         == WrapQuads(a, x0, pen, scale) + WrapQuads(b, x0, WrapEnd(a, x0, pen, scale), scale)
    ensures WrapEnd(a + b, x0, pen, scale) == WrapEnd(b, x0, WrapEnd(a, x0, pen, scale), scale)
    ensures WrapCount(a + b, x0, pen, scale)
         == WrapCount(a, x0, pen, scale) + WrapCount(b, x0, WrapEnd(a, x0, pen, scale), scale)
  {
    WrapQuadsAppend(a, b, x0, pen, scale);
    WrapEndAppend(a, b, x0, pen, scale);
    WrapCountAppend(a, b, x0, pen, scale);
  }

  /** One more glyph: it is placed where PlacePen puts it given the pen so far, the
      pen then advances from there, and the wrap count grows exactly when the wrap
      test fires for it. */
  lemma WrapStep(gs: seq<Character>, g: Character, x0: real, pen: Pen, scale: real)
    ensures var p := PlacePen(g, x0, WrapEnd(gs, x0, pen, scale), scale);
      && WrapQuads(gs + [g], x0, pen, scale) == WrapQuads(gs, x0, pen, scale) + [GlyphQuad(g, p.x, p.y, scale)]
      && WrapEnd(gs + [g], x0, pen, scale) == Pen(p.x + PenStep(g, scale), p.y)
      && WrapCount(gs + [g], x0, pen, scale)
         == WrapCount(gs, x0, pen, scale) + (if WrapsBefore(g, x0, WrapEnd(gs, x0, pen, scale), scale) then 1 else 0)
  {
    WrapAppend(gs, [g], x0, pen, scale);
    assert [g][1..] == [];
  }

  /** The drawTextResizeHeight loop's invariant carried over one more character;
      `drawn` plays the same part as in LinePrefixStep. */
  lemma WrapPrefixStep(drawn: seq<DrawCall>, gs: seq<Character>, i: nat, x: real, y: real, scale: real, pen: Pen)
    requires i < |gs|
    requires pen == WrapEnd(gs[..i], x, Pen(x, y), scale)
    ensures var p := PlacePen(gs[i], x, pen, scale);
      && drawn + WrapQuads(gs[..i], x, Pen(x, y), scale) + [GlyphQuad(gs[i], p.x, p.y, scale)]
         == drawn + WrapQuads(gs[..i + 1], x, Pen(x, y), scale)
      && Pen(p.x + PenStep(gs[i], scale), p.y) == WrapEnd(gs[..i + 1], x, Pen(x, y), scale)
  {
    assert gs[..i + 1] == gs[..i] + [gs[i]];
    WrapStep(gs[..i], gs[i], x, Pen(x, y), scale);
  }

  /** The baseline y lowered by n line heights. */
  function LinesDown(y: real, n: nat, scale: real): real
  {
    if n == 0 then y else LinesDown(y, n - 1, scale) - LineHeight * scale
  }

  lemma {:induction false} LinesDownShift(y: real, n: nat, scale: real)
    ensures LinesDown(y - LineHeight * scale, n, scale) == LinesDown(y, n + 1, scale)
  {
    if n > 0 {
      LinesDownShift(y, n - 1, scale);
    }
  }

  /** n line drops lower the baseline by n times the scaled line height. */
  lemma {:induction false} LinesDownIsProduct(y: real, n: nat, scale: real)
    ensures LinesDown(y, n, scale) == y - LineHeight * scale * (n as real)
  {
    if n > 0 {
      LinesDownIsProduct(y, n - 1, scale);
      var d := LineHeight * scale;
      assert d * ((n - 1) as real) + d == d * (n as real);
    }
  }

  /** The pen has dropped one line height for every wrap. */
  lemma {:induction false} WrapEndHeight(gs: seq<Character>, x0: real, pen: Pen, scale: real)
    ensures WrapEnd(gs, x0, pen, scale).y == LinesDown(pen.y, WrapCount(gs, x0, pen, scale), scale)
  {
    if gs != [] {
      var p := PlacePen(gs[0], x0, pen, scale);
      var next := Pen(p.x + PenStep(gs[0], scale), p.y);
      WrapEndHeight(gs[1..], x0, next, scale);
      if WrapsBefore(gs[0], x0, pen, scale) {
        LinesDownShift(pen.y, WrapCount(gs[1..], x0, next, scale), scale);
      }
    }
  }

  /** The same in closed form: after k wraps the pen is at y - 48 * scale * k. */
  lemma WrapEndDrop(gs: seq<Character>, x0: real, pen: Pen, scale: real)
    ensures WrapEnd(gs, x0, pen, scale).y == pen.y - LineHeight * scale * (WrapCount(gs, x0, pen, scale) as real)
  {
    WrapEndHeight(gs, x0, pen, scale);
    LinesDownIsProduct(pen.y, WrapCount(gs, x0, pen, scale), scale);
  }

  /** When the wrap test never fires, drawTextResizeHeight draws exactly what drawText
      draws from the same pen, and ends at the same place. */
  lemma {:induction false} NoWrapIsLine(gs: seq<Character>, x0: real, pen: Pen, scale: real)
    requires WrapCount(gs, x0, pen, scale) == 0
    ensures WrapQuads(gs, x0, pen, scale) == LineQuads(gs, pen.x, pen.y, scale)
    ensures WrapEnd(gs, x0, pen, scale) == Pen(pen.x + PenOffset(gs, scale), pen.y)
  {
    if gs != [] {
      NoWrapIsLine(gs[1..], x0, Pen(pen.x + PenStep(gs[0], scale), pen.y), scale);
    }
  }

  /** The quad's left edge is within the wrap width, or it is the glyph's bearing from x0. */
  predicate LeftEdgeWithin(q: DrawCall, ch: Character, x0: real, scale: real)
    requires |q.vertices| == QuadVertexCount
  {
    var left := QuadRect(q.vertices).x;
    left <= x0 + WrapWidth || left == x0 + (ch.bearing.x as real) * scale
  }

  /** The quad of a glyph placed after the wrap test keeps its left edge within the
      wrap width, or starts a line at x0. */
  lemma PlacedLeftBound(ch: Character, x0: real, pen: Pen, scale: real)
    ensures var p := PlacePen(ch, x0, pen, scale);
      LeftEdgeWithin(GlyphQuad(ch, p.x, p.y, scale), ch, x0, scale)
  {
  }

  /** Every quad's left edge either stays within x0 + 100, or the glyph starts a new
      line at x0 (a glyph wider than the line is still placed, then wraps the next). */
  lemma {:induction false} WrapLeftEdge(gs: seq<Character>, x0: real, pen: Pen, scale: real, k: nat)
    requires k < |gs|
    ensures LeftEdgeWithin(WrapQuads(gs, x0, pen, scale)[k], gs[k], x0, scale)
  {
    var p := PlacePen(gs[0], x0, pen, scale);
    var next := Pen(p.x + PenStep(gs[0], scale), p.y);
    var rest := WrapQuads(gs[1..], x0, next, scale);
    var q := GlyphQuad(gs[0], p.x, p.y, scale);
    assert WrapQuads(gs, x0, pen, scale) == [q] + rest;
    if k == 0 {
      PlacedLeftBound(gs[0], x0, pen, scale);
    } else {
      WrapLeftEdge(gs[1..], x0, next, scale, k - 1);
      assert gs[1..][k - 1] == gs[k];
      assert WrapQuads(gs, x0, pen, scale)[k] == rest[k - 1];
    }
  }

  /** The first wrap: every glyph before it sits on the first line exactly as drawText
      would put it, and the glyph that fires the test starts the second line at x0. */
  lemma FirstWrap(gs: seq<Character>, x: real, y: real, scale: real, n: nat)
    requires n < |gs|
    requires WrapCount(gs[..n], x, Pen(x, y), scale) == 0
    requires WrapsBefore(gs[n], x, WrapEnd(gs[..n], x, Pen(x, y), scale), scale)
    ensures WrapQuads(gs, x, Pen(x, y), scale)[..n] == LineQuads(gs[..n], x, y, scale)
    ensures WrapQuads(gs, x, Pen(x, y), scale)[n] == GlyphQuad(gs[n], x, y - LineHeight * scale, scale)
  {
    var pen := Pen(x, y);
    NoWrapIsLine(gs[..n], x, pen, scale);
    assert gs == gs[..n] + [gs[n]] + gs[n + 1..];
    WrapAppend(gs[..n] + [gs[n]], gs[n + 1..], x, pen, scale);
    WrapStep(gs[..n], gs[n], x, pen, scale);
  }
}
