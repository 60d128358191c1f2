/*
 * The text renderer of include/ui_text.h as a class: the glyph table it builds
 * once, the `Characters[c]` subscript that inserts on a miss, and the two
 * drawing loops that walk a pen along a string and issue one quad per character.
 */
module UiTextRender {
  import opened TextureQuads
  import opened Glyphs
  import opened TextLayout

  class UiText {
    /** The renderer's own vertex buffer, sized for one quad. */
    const vbo: array<real>
    /** `std::map<GLchar, Character> Characters` */
    var Characters: map<GLchar, Character>
    /** The table as the constructor left it. */
    ghost const Atlas: map<GLchar, Character>
    /** The draw calls issued so far, in order. */
    ghost var Drawn: seq<DrawCall>

    /** Every entry is the built one or, for a key added by a missed lookup, the zero
        entry; no built entry is ever lost. */
    ghost predicate Valid()
      reads this
    {
      && vbo.Length == QuadFloats
      && Atlas.Keys <= Characters.Keys
      && (forall c :: c in Characters ==> Characters[c] == GlyphOf(Atlas, c))
    }

    /** Loads codes 0..127 in turn; `faces[c]` is what loading code c produced, None
        when FT_Load_Char failed, in which case the code is skipped. */
    constructor (faces: seq<Option<Rasterized>>)
      requires |faces| == AsciiCount
      ensures Valid() && fresh(vbo)
      ensures Atlas == AtlasTable(faces) && Characters == Atlas
      ensures Drawn == []
    {
      var table: map<GLchar, Character> := map[];
      for c := 0 to AsciiCount
        invariant forall k :: k in table <==> 0 <= k as int < c && faces[k as int].Some?
        invariant forall k :: k in table ==> 0 <= k && table[k] == ToCharacter(faces[k as int].value)
      {
        if faces[c].None? {
          continue;
        }
        var character := ToCharacter(faces[c].value);
        // std::map::insert leaves an existing key alone
        if c as GLchar !in table {
          table := table[c as GLchar := character];
        }
      }
      assert table == AtlasTable(faces) by {
        forall k | k in AtlasTable(faces)
          ensures k in table
        {
          assert Loaded(faces, k);
        }
      }
      vbo := new real[QuadFloats];
      Characters := table;
      Atlas := table;
      Drawn := [];
    }

    /** `Characters[c]`: the stored entry, or a zero entry inserted for a missing key. */
    method Lookup(c: GLchar) returns (ch: Character)
      requires Valid()
      modifies this
      ensures Valid()
      ensures ch == GlyphOf(Atlas, c)
      ensures c !in old(Characters) ==> ch == ZeroGlyph
      ensures Characters == Subscript(old(Characters), c)
      ensures Drawn == old(Drawn)
    {
      if c !in Characters {
        Characters := Characters[c := ZeroGlyph];
      }
      ch := Characters[c];
    }

    /** Binds the glyph's texture, overwrites the whole vertex buffer from offset 0 with
        the quad and draws its 6 vertices. */
    method DrawQuad(texture: nat, vertices: seq<Vertex>)
      requires Valid() && |vertices| == QuadVertexCount
      modifies this`Drawn, vbo
      ensures Valid()
      ensures vbo[..] == Flatten(vertices)
      ensures Drawn == old(Drawn) + [DrawCall(texture, vertices)]
    {
      Upload(vbo, vertices);
      Drawn := Drawn + [DrawCall(texture, vertices)];
    }

    /** One pass of drawText's loop: look the character up, draw its glyph with the pen
        at (penX, y) and return the pen advanced past it. */
    method DrawLineGlyph(c: GLchar, penX: real, y: real, scale: real) returns (next: real)
      requires Valid()
      modifies this, vbo
      ensures Valid()
      ensures Characters == Subscript(old(Characters), c)
      ensures Drawn == old(Drawn) + [GlyphQuad(GlyphOf(Atlas, c), penX, y, scale)]
      ensures next == penX + PenStep(GlyphOf(Atlas, c), scale)
      ensures vbo[..] == Flatten(Drawn[|Drawn| - 1].vertices)
    {
      var ch := Lookup(c);
      var quad := GlyphQuad(ch, penX, y, scale);
      DrawQuad(quad.texture, quad.vertices);
      next := penX + PenStep(ch, scale);
    }

    /** drawText: one quad per character in order, the pen moving right by each glyph's
        whole-pixel advance; the baseline y never changes. */
    method DrawText(text: seq<GLchar>, x: real, y: real, scale: real)
      requires Valid()
      modifies this, vbo
      ensures Valid()
      ensures Characters == AfterLookups(old(Characters), text)
      ensures Drawn == old(Drawn) + LineQuads(GlyphsOf(Atlas, text), x, y, scale)
      ensures text == [] ==> vbo[..] == old(vbo[..])
      ensures text != [] ==> vbo[..] == Flatten(Drawn[|Drawn| - 1].vertices)
    {
      ghost var gs := GlyphsOf(Atlas, text);
      var penX := x;
      for i := 0 to |text|
        invariant Valid()
        invariant Characters == AfterLookups(old(Characters), text[..i])
        invariant penX == x + PenOffset(gs[..i], scale)
        invariant Drawn == old(Drawn) + LineQuads(gs[..i], x, y, scale)
        invariant i == 0 ==> vbo[..] == old(vbo[..])
        invariant i > 0 ==> vbo[..] == Flatten(Drawn[|Drawn| - 1].vertices)
      {
        LinePrefixStep(old(Drawn), gs, i, x, y, scale, penX);
        AfterLookupsStep(old(Characters), text, i);
        penX := DrawLineGlyph(text[i], penX, y, scale);
      }
      assert text[..|text|] == text;
      assert gs[..|text|] == gs;
    }

    /** One pass of drawTextResizeHeight's loop: look the character up, wrap the pen
        (penX, penY) if the glyph's left edge would pass x + 100, draw the glyph there
        and return the pen advanced past it. */
    method DrawWrappedGlyph(c: GLchar, x: real, penX: real, penY: real, scale: real)
      returns (tempX: real, tempY: real)
      requires Valid()
      modifies this, vbo
      ensures Valid()
      ensures Characters == Subscript(old(Characters), c)
      ensures var ch := GlyphOf(Atlas, c);
        var p := PlacePen(ch, x, Pen(penX, penY), scale);
        && Drawn == old(Drawn) + [GlyphQuad(ch, p.x, p.y, scale)]
        && Pen(tempX, tempY) == Pen(p.x + PenStep(ch, scale), p.y)
      ensures vbo[..] == Flatten(Drawn[|Drawn| - 1].vertices)
    {
      var ch := Lookup(c);
      tempX, tempY := penX, penY;
      if tempX + (ch.bearing.x as real) * scale > x + WrapWidth {
        tempX := x;
        tempY := tempY - LineHeight * scale;
      }
      var quad := GlyphQuad(ch, tempX, tempY, scale);
      DrawQuad(quad.texture, quad.vertices);
      tempX := tempX + PenStep(ch, scale);
    }

    /** drawTextResizeHeight: the same walk, except that before each glyph the pen goes
        back to x and one line height (48 * scale) down whenever the glyph's left edge
        would pass x + 100. */
    method DrawTextResizeHeight(text: seq<GLchar>, x: real, y: real, scale: real)
      requires Valid()
      modifies this, vbo
      ensures Valid()
      ensures Characters == AfterLookups(old(Characters), text)
      ensures Drawn == old(Drawn) + WrapQuads(GlyphsOf(Atlas, text), x, Pen(x, y), scale)
      ensures text == [] ==> vbo[..] == old(vbo[..])
      ensures text != [] ==> vbo[..] == Flatten(Drawn[|Drawn| - 1].vertices)
    {
      ghost var gs := GlyphsOf(Atlas, text);
      var tempX, tempY := x, y;
      for i := 0 to |text|
        invariant Valid()
        invariant Characters == AfterLookups(old(Characters), text[..i])
        invariant Pen(tempX, tempY) == WrapEnd(gs[..i], x, Pen(x, y), scale)
        invariant Drawn == old(Drawn) + WrapQuads(gs[..i], x, Pen(x, y), scale)
        invariant i == 0 ==> vbo[..] == old(vbo[..])
        invariant i > 0 ==> vbo[..] == Flatten(Drawn[|Drawn| - 1].vertices)
      {
        WrapPrefixStep(old(Drawn), gs, i, x, y, scale, Pen(tempX, tempY));
        AfterLookupsStep(old(Characters), text, i);
        tempX, tempY := DrawWrappedGlyph(text[i], x, tempX, tempY, scale);
      }
      assert text[..|text|] == text;
      assert gs[..|text|] == gs;
    }
  }
}
