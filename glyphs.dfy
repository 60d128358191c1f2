/*
 * The glyph table of the text renderer (include/ui_text.h): the per-character
 * metrics record, the table the constructor builds for codes 0..127, and what
 * a `Characters[c]` subscript reads and inserts.
 */
module Glyphs {

  datatype Option<T> = None | Some(value: T)

  /** The key type of the table: `GLchar`, a signed 8-bit char. */
  newtype GLchar = c: int | -128 <= c < 128

  /** The number of codes the constructor rasterises: 0 to 127. */
  const AsciiCount: int := 128

  /** glm::ivec2 */
  datatype IVec2 = IVec2(x: int, y: int)

  /** One table entry: texture name, bitmap size, bearing from the pen origin to the
      bitmap's top-left corner, and the advance in 1/64 pixel. */
  datatype Character = Character(textureId: nat, size: IVec2, bearing: IVec2, advance: int)

  /** The value-initialised entry `operator[]` inserts for a missing key. */
  const ZeroGlyph: Character := Character(0, IVec2(0, 0), IVec2(0, 0), 0)

  /** What rasterising one code produced: the texture name generated for its bitmap,
      the bitmap's width and rows, bitmap_left, bitmap_top and advance.x. */
  datatype Rasterized = Rasterized(texture: nat, width: nat, rows: nat, left: int, top: int, advanceX: int)

  /** The entry the constructor stores for a rasterised code. */
  function ToCharacter(r: Rasterized): Character
  {
    Character(r.texture, IVec2(r.width, r.rows), IVec2(r.left, r.top), r.advanceX)
  }

  /** The table the constructor builds when `faces[c]` is the outcome of loading
      code c (None when FT_Load_Char failed). */
  function AtlasTable(faces: seq<Option<Rasterized>>): map<GLchar, Character>
    requires |faces| == AsciiCount
  {
    map c: GLchar | Loaded(faces, c) :: ToCharacter(faces[c as int].value)
  }

  /** Code c is in the rasterised range and FT_Load_Char succeeded for it. */
  predicate Loaded(faces: seq<Option<Rasterized>>, c: GLchar)
    requires |faces| == AsciiCount
  {
    0 <= c && faces[c as int].Some?
  }

  /** The keys of the built table are exactly the codes 0..127 that loaded, and each
      stores its own bitmap size, bearing and advance. */
  lemma AtlasTableContents(faces: seq<Option<Rasterized>>, c: GLchar)
    requires |faces| == AsciiCount
    ensures c in AtlasTable(faces) <==> 0 <= c && faces[c as int].Some?
    ensures c in AtlasTable(faces) ==>
      var r := faces[c as int].value;
      var ch := AtlasTable(faces)[c];
      ch.textureId == r.texture && ch.size == IVec2(r.width, r.rows) &&
      ch.bearing == IVec2(r.left, r.top) && ch.advance == r.advanceX
  {
  }

  /** The glyph a subscript yields: the stored entry, or the zero entry for a missing key. */
  function GlyphOf(table: map<GLchar, Character>, c: GLchar): Character
  {
    if c in table then table[c] else ZeroGlyph
  }

  /** The glyphs a string looks up, in order. */
  function GlyphsOf(table: map<GLchar, Character>, text: seq<GLchar>): (gs: seq<Character>)
    ensures |gs| == |text|
    ensures forall i :: 0 <= i < |text| ==> gs[i] == GlyphOf(table, text[i])
  {
    seq(|text|, i requires 0 <= i < |text| => GlyphOf(table, text[i]))
  }

  /** The table after `table[c]`: unchanged when c is present, extended with the zero
      entry when it is not. */
  function Subscript(table: map<GLchar, Character>, c: GLchar): map<GLchar, Character>
  {
    if c in table then table else table[c := ZeroGlyph]
  }

  /** The table after subscripting each character of `text` in turn. */
  function AfterLookups(table: map<GLchar, Character>, text: seq<GLchar>): map<GLchar, Character>
    decreases |text|
  {
    if text == [] then table
    else Subscript(AfterLookups(table, text[..|text| - 1]), text[|text| - 1])
  }

  /** Subscripting one more character of a string. */
  lemma AfterLookupsStep(table: map<GLchar, Character>, text: seq<GLchar>, i: nat)
    requires i < |text|
    ensures AfterLookups(table, text[..i + 1]) == Subscript(AfterLookups(table, text[..i]), text[i])
  {
    assert text[..i + 1][..i] == text[..i];
  }

  /** Looking up a string adds exactly its missing characters, each as the zero entry,
      and leaves every entry already present as it was. */
  lemma {:induction false} AfterLookupsContents(table: map<GLchar, Character>, text: seq<GLchar>)
    ensures AfterLookups(table, text).Keys == table.Keys + (set c | c in text)
    ensures forall c :: c in table ==> AfterLookups(table, text)[c] == table[c]
    ensures forall c :: c in AfterLookups(table, text) && c !in table ==> AfterLookups(table, text)[c] == ZeroGlyph
  {
    if text != [] {
      var init := text[..|text| - 1];
      AfterLookupsContents(table, init);
      var last := text[|text| - 1];
      assert (set c | c in text) == (set c | c in init) + {last} by {
        assert text == init + [last];
      }
    }
  }

  /** Lookups never change what a later lookup reads: the glyph of any code is the
      same before and after a run of subscripts. */
  lemma {:induction false} GlyphOfAfterLookups(table: map<GLchar, Character>, text: seq<GLchar>, c: GLchar)
    ensures GlyphOf(AfterLookups(table, text), c) == GlyphOf(table, c)
  {
    if text != [] {
      GlyphOfAfterLookups(table, text[..|text| - 1], c);
    }
  }

  /** A byte of a std::string read as a signed char. */
  function CharOfByte(b: int): (c: GLchar)
    requires 0 <= b < 256
    ensures c as int % 256 == b
  {
    if b < 128 then b as GLchar else (b - 256) as GLchar
  }

  /** Every byte of a multi-byte UTF-8 sequence is 128 or more, so it is never a key of
      the built table, and its lookup yields the zero entry. */
  lemma NonAsciiByteMisses(faces: seq<Option<Rasterized>>, b: int)
    requires |faces| == AsciiCount
    requires 128 <= b < 256
    ensures CharOfByte(b) !in AtlasTable(faces)
    ensures GlyphOf(AtlasTable(faces), CharOfByte(b)) == ZeroGlyph
  {
  }
}
