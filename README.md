# Text and textured-quad layout of HelloOpenGL, in Dafny

This project models the two renderers of HelloOpenGL's 2D overlay:

- `UiText` (include/ui_text.h) builds a glyph table for character codes 0..127 once. It then draws strings one textured quad per character, walking a pen along the baseline. `drawText` lays the string out on one line. `drawTextResizeHeight` wraps greedily, character by character, at a fixed width of 100.
- `TextureRender` (include/texture_render.h) draws one textured rectangle. It builds a 6 x 5 vertex table and overwrites its 30-float vertex buffer with it.

Both renderers build the same vertex table, so it is defined once (`TextureQuads.QuadVertices`) and the glyph quad is that table applied to the glyph's rectangle.

Files and modules:

- `texture_quads.dfy`, module `TextureQuads`: the vertex table and its inverse (`QuadRect`). It also holds the float layout of the buffer (`Flatten`), the attribute layout through which the GPU reads it back (`Unflatten`), and the class `TextureRender`, which owns a 30-element `array<real>` buffer.
- `glyphs.dfy`, module `Glyphs`: the `Character` record and `GLchar` keys. It also holds the table the constructor builds (`AtlasTable`) and what a `Characters[c]` subscript reads (`GlyphOf`) and inserts (`Subscript`, `AfterLookups`).
- `text_layout.dfy`, module `TextLayout`: both pen walks as functions of the looked-up glyphs (`LineQuads` and `WrapQuads`, `WrapEnd`, `WrapCount`), with the lemmas about them.
- `ui_text.dfy`, module `UiTextRender`: the class `UiText`. Its `Characters` field is a `map` that lookups extend, and its vertex buffer is a 30-element `array<real>`. The constructor runs the loop over codes 0..127, and `DrawText` and `DrawTextResizeHeight` run the loops over the string. Each loop is proved against the functions of `TextLayout`.

Modelling choices:

- Draw calls are recorded in a ghost sequence (`Drawn`, `Draws`) of `DrawCall(texture, vertices)`. Each entry stands for one `glBindTexture` + `glBufferSubData` + `glDrawArrays` sequence.
- FreeType is not modelled. The constructor takes, for each code 0..127, what loading that code produced: `None` when `FT_Load_Char` failed, otherwise the bitmap's width, rows, `bitmap_left`, `bitmap_top` and `advance.x`. The texture name that `glGenTextures` returned for it comes in the same record.
- `GLchar` is glad's typedef for plain `char`. The model takes it as signed (-128..127), as plain `char` is on x86 and x86-64. A string byte of 128 or more then becomes a negative key (`Glyphs.CharOfByte`). On ARM and AArch64 Linux plain `char` is unsigned; see "## Left out".
- `Advance >> 6` is `advance / 64` on `int`. For a positive divisor Dafny's division is floor division, the same as an arithmetic right shift by 6.
- Positions and `scale` are `real`.
- The body of each loop in `drawText` and `drawTextResizeHeight` is its own method (`DrawLineGlyph`, `DrawWrappedGlyph`). Each does the lookup, the wrap test (for the wrapped walk), the quad, the upload and draw, and the pen advance, in the same order as the source.

## Model

| member | source | states |
|---|---|---|
| TextureQuads.QuadVertices | include/texture_render.h:40-47 | the vertex table of a quad always has 6 vertices |
| TextureQuads.RectRoundTrip | include/texture_render.h:40-47 | the rectangle (x, y, w, h) is read back unchanged from the table built from it |
| TextureQuads.QuadCharacterization | include/texture_render.h:40-47 | a 6-vertex table is one built from a rectangle iff all vertices have z = 0, vertices 0/3 and 2/4 are equal (two triangles sharing the top-left/bottom-right diagonal), the edges are axis-aligned and the texture coordinates are the vertically flipped corners (0,0), (0,1), (1,1), (1,0) |
| TextureQuads.Flatten | include/texture_render.h:40-55 | the `GLfloat[6][5]` table as the contiguous float array `glBufferSubData` copies: each vertex's x, y, z, u, v in vertex order (its length and indexing are FlattenLength and FlattenAt) |
| TextureQuads.Unflatten | include/texture_render.h:24-27 | how the GPU reads the buffer: one vertex per 5 floats, position from floats 0-2 and texcoord from floats 3-4 of each stride; one vertex for every 5 floats |
| TextureQuads.FlattenLength | include/texture_render.h:55 | the uploaded float array has 5 floats per vertex |
| TextureQuads.FlattenAt | include/texture_render.h:40-47 | component j of vertex i is float 5*i + j of the `GLfloat[6][5]` array (row-major layout) |
| TextureQuads.UnflattenFlatten | include/texture_render.h:24-27 | reading the buffer back with the attribute layout (3 position floats at offset 0, 2 texcoord floats at offset 3, stride 5) gives back exactly the uploaded vertex table |
| TextureQuads.QuadFillsBuffer | include/texture_render.h:22 | one quad's table is exactly 30 floats, the size of the buffer allocated at construction |
| TextureQuads.Upload | include/texture_render.h:55 | uploading at offset 0 replaces every float of the buffer with the table's floats |
| TextureQuads.TextureRender.constructor | include/texture_render.h:15-30 | the renderer owns a fresh 30-float buffer and has issued no draws |
| TextureQuads.TextureRender.Draw | include/texture_render.h:32-60 | after `draw` the whole buffer holds the table of (x, y, w, h), whatever it held before and whatever texture is bound, so repeating a call leaves the same buffer; the GPU reads back that table; exactly one draw with the given texture is appended |
| Glyphs.ToCharacter | include/ui_text.h:73-77 | the entry stored for one loaded code: its texture name, size (bitmap.width, bitmap.rows), bearing (bitmap_left, bitmap_top) and advance.x |
| Glyphs.AtlasTable | include/ui_text.h:44-79 | the table the constructor's loop builds: one ToCharacter entry for each code 0..127 whose load succeeded, none for the others (characterised by AtlasTableContents) |
| Glyphs.AtlasTableContents | include/ui_text.h:44-78 | a code is a key of the built table iff it lies in 0..127 and its glyph loaded; its entry records the texture, size (width, rows), bearing (left, top) and advance.x of that load |
| Glyphs.GlyphsOf | include/ui_text.h:114-116 | the glyphs a string reads, one per character in order, each the stored entry or the zero entry |
| Glyphs.GlyphOf | include/ui_text.h:116 | the value `Characters[c]` yields: the stored entry, or the value-initialised entry `ZeroGlyph` (texture 0, size 0, bearing 0, advance 0) when c is not a key |
| Glyphs.Subscript | include/ui_text.h:116 | the table after `Characters[c]`: unchanged when c is a key, otherwise extended with c mapped to `ZeroGlyph` |
| Glyphs.AfterLookups | include/ui_text.h:114-116 | the table after subscripting every character of a string in order (characterised by AfterLookupsContents) |
| Glyphs.AfterLookupsStep | include/ui_text.h:116 | looking up one more character extends the table as a single subscript does |
| Glyphs.AfterLookupsContents | include/ui_text.h:116 | after subscripting a string the table's keys are the old keys plus the string's characters; old entries are unchanged and every added entry is the zero entry |
| Glyphs.GlyphOfAfterLookups | include/ui_text.h:166 | inserting zero entries never changes what any later lookup reads |
| Glyphs.CharOfByte | include/ui_text.h:203 | a string byte b becomes the signed char key congruent to b modulo 256 |
| Glyphs.NonAsciiByteMisses | src/main.cpp:184 | a byte of 128 or more (every byte of a multi-byte UTF-8 character) is never a key of the built table, and its lookup yields the zero entry |
| TextLayout.AdvancePixels | include/ui_text.h:140 | `Advance >> 6`: the whole pixels n of the advance, with 64 * n <= Advance < 64 * n + 64 (floor division, negative advances included) |
| TextLayout.PenStep | include/ui_text.h:140 | `(Advance >> 6) * scale`, the pen movement after a glyph: never negative for a non-negative advance and scale, and 0 for an advance under 64 |
| TextLayout.GlyphQuad | include/ui_text.h:117-130 | the quad drawn for a glyph at the pen: it carries the glyph's texture, has 6 vertices and covers x = pen + bearing.x*scale, y = baseline - (size.y - bearing.y)*scale, w = size.x*scale, h = size.y*scale |
| TextLayout.GlyphQuadPlacement | include/ui_text.h:117-130 | every glyph's quad is a well-formed flat quad: z = 0, the two triangles share a diagonal, axis-aligned edges, flipped texture corners |
| TextLayout.ZeroGlyphIsInvisible | include/ui_text.h:116-140 | the zero entry draws an empty quad at the pen and moves the pen by 0 |
| TextLayout.PenOffset | include/ui_text.h:140 | the total pen movement over a run of glyphs: the sum of their `(Advance >> 6) * scale` |
| TextLayout.LineQuads | include/ui_text.h:114-141 | drawText's walk yields exactly one quad per character, each with 6 vertices; an empty string yields none |
| TextLayout.LineAppend | include/ui_text.h:114-141 | laying out a concatenation lays out the first part, then the second from where the pen stopped; the pen offsets add |
| TextLayout.LineStep | include/ui_text.h:116-140 | one more character is drawn at the current pen and moves it by its own (Advance / 64) * scale |
| TextLayout.LinePrefixStep | include/ui_text.h:114-141 | drawText's loop invariant (quads so far, pen so far) carries over one more character |
| TextLayout.LineQuadAt | include/ui_text.h:117-140 | the k-th quad is the k-th glyph's, with the pen at the start x plus the sum of (Advance / 64) * scale over the earlier glyphs, on the unchanged baseline y |
| TextLayout.SubPixelAdvancesStay | include/ui_text.h:140 | advances in 0..63 (under one pixel) move the pen by 0 |
| TextLayout.MissingRunInvisible | include/ui_text.h:116-140 | a run of missing characters draws empty quads at one spot and does not move the pen |
| TextLayout.WrapsBefore | include/ui_text.h:167 | the wrap test: the pen x plus the scaled bearing is strictly greater than x + 100 |
| TextLayout.PlacePen | include/ui_text.h:167-171 | where a glyph is placed: (x, tempY - 48*scale) when the wrap test fires, else the pen; either its left edge is within x + 100 or its line starts at x, and the baseline stays or drops by exactly one line |
| TextLayout.PlacedLeftBound | include/ui_text.h:167-172 | the quad of a glyph placed after the wrap test has its left edge within x + 100, or at x plus its bearing |
| TextLayout.WrapQuads | include/ui_text.h:164-196 | drawTextResizeHeight's walk yields exactly one quad per character, each with 6 vertices |
| TextLayout.WrapEnd | include/ui_text.h:160-195 | the final (tempX, tempY): for a non-negative scale the pen never ends above the starting baseline |
| TextLayout.WrapCount | include/ui_text.h:167-171 | how many times the wrap test fired during the walk |
| TextLayout.WrapQuadsAppend | include/ui_text.h:164-196 | the quads of a concatenation are the first part's, then the second part's from the pen where the first stopped |
| TextLayout.WrapEndAppend | include/ui_text.h:164-196 | the end pen of a concatenation is the second part's end pen, walked from where the first part stopped |
| TextLayout.WrapCountAppend | include/ui_text.h:167-171 | the wrap count of a concatenation is the sum of the two parts' counts |
| TextLayout.WrapAppend | include/ui_text.h:164-196 | the wrapped walk over a concatenation is the walk over the first part, then the walk over the second from the pen and line where the first stopped; the wrap counts add |
| TextLayout.WrapStep | include/ui_text.h:167-171 | each character is placed at the pen, or at (x, pen.y - 48*scale) exactly when pen.x + bearing.x*scale > x + 100; the wrap count grows by one exactly in that case; the pen then advances from the placed position |
| TextLayout.WrapPrefixStep | include/ui_text.h:164-196 | drawTextResizeHeight's loop invariant (quads so far, pen so far) carries over one more character |
| TextLayout.LinesDown | include/ui_text.h:170 | the baseline lowered n times by `tempY -= 48 * scale` |
| TextLayout.LinesDownShift | include/ui_text.h:170 | dropping one line and then n more is dropping n + 1 lines |
| TextLayout.LinesDownIsProduct | include/ui_text.h:170 | n line drops lower the baseline by 48 * scale * n |
| TextLayout.WrapEndHeight | include/ui_text.h:167-171 | the final tempY is y lowered by one line height for each wrap |
| TextLayout.WrapEndDrop | include/ui_text.h:160-171 | tempY = y - 48 * scale * k after k wraps |
| TextLayout.NoWrapIsLine | include/ui_text.h:167-195 | when the wrap test never fires, drawTextResizeHeight draws exactly drawText's quads and ends at drawText's pen |
| TextLayout.WrapLeftEdge | include/ui_text.h:167-173 | every quad of the wrapped walk has its left edge within x + 100, or starts a line at x plus its bearing |
| TextLayout.FirstWrap | include/ui_text.h:164-195 | before the first wrap every character sits on the first line exactly as in drawText; the character that fires the first wrap is placed with the pen at (x, y - 48*scale) |
| UiTextRender.UiText.constructor | include/ui_text.h:28-96 | after the loop over codes 0..127, which skips the codes whose load failed, the table is exactly the built table; a fresh 30-float buffer; no draws |
| UiTextRender.UiText.Lookup | include/ui_text.h:116 | `Characters[c]` returns the built entry or, for a code not in the table, the zero entry, which it inserts; no other entry changes |
| UiTextRender.UiText.DrawQuad | include/ui_text.h:132-138 | the whole buffer is overwritten with the quad and one draw with the glyph's texture is appended |
| UiTextRender.UiText.DrawLineGlyph | include/ui_text.h:116-140 | one pass of drawText's loop: one lookup, one quad at the pen, the pen advanced by the glyph's advance |
| UiTextRender.UiText.DrawText | include/ui_text.h:98-144 | the draws appended are exactly drawText's walk over the string's glyphs from (x, y); the table gains exactly the missed characters as zero entries; the buffer holds the last quad, or is untouched for an empty string |
| UiTextRender.UiText.DrawWrappedGlyph | include/ui_text.h:166-195 | one pass of drawTextResizeHeight's loop: the lookup, the wrap test against x + 100, one quad at the placed pen, the pen advanced |
| UiTextRender.UiText.DrawTextResizeHeight | include/ui_text.h:146-199 | the draws appended are exactly the wrapped walk over the string's glyphs from (x, y); the table changes as for drawText; the buffer holds the last quad, or is untouched for an empty string |

## Left out

- OpenGL state is not modelled: VAO/VBO generation and binding, texture parameters, `glActiveTexture`, `glPixelStorei`, and the unbinding at the end of each call. Only the buffer contents and the sequence of draws are modelled.
- Shader calls are not modelled: `use`, `setMat4`, `setVec3`. The `glm::ortho` projection fixed to 800 x 600, and the model/view/projection matrices passed to `TextureRender::draw`, are also left out. They only set uniforms and do not affect the layout.
- The text colour parameter is left out. It only sets a uniform.
- FreeType is not modelled: library init, opening the font file, `FT_Set_Pixel_Sizes`, the extra load of 'X', and the bitmap pixels. These are foreign calls. Their results enter the model as the constructor's input. Their failure paths only print a message.
- The `FT_Done_Face` and `FT_Done_FreeType` teardown is left out.
- GLfloat rounding is not modelled. Positions and scale are exact reals, so the model makes no claim about float equality.
- `UiTextRender.UiText.constructor`: it does not model `advance.x` (a `FT_Pos`, i.e. `long`) being truncated to the 32-bit `GLint` field. It also does not model the `int` overflow of `Size.y - Bearing.y`. Glyph metrics at pixel height 48 are far from either limit.
- Glyphs.CharOfByte: models a signed `char` ABI only. Where plain `char` is unsigned (ARM and AArch64 Linux), a byte of 128 or more becomes a key in 128..255, not a negative one. Such a key is outside 0..127 too, so it is never a key of the built table and reads the zero entry there as well: the conclusion of `Glyphs.NonAsciiByteMisses` holds on both ABIs.
- `TextLayout.AdvancePixels`: it does not model that a right shift of a negative `GLint` was implementation-defined before C++20. The model takes the arithmetic shift that mainstream compilers produce.
- src/main.cpp is not part of this model: the window, the input callbacks, the camera, the cube rendering and `loadTexture`. The exception is the one string at line 184, used as an example of non-ASCII input.
- include/node.h is not part of this model. It only declares members.
