/*
 * The textured quad shared by the text renderer and the texture renderer
 * (include/texture_render.h): the 6 x 5 vertex table built from a rectangle,
 * the 30-float vertex buffer it is written into, and the attribute layout
 * through which the GPU reads that buffer back.
 */
module TextureQuads {

  /** One vertex as the buffer stores it: position (x, y, z), then texcoord (u, v). */
  datatype Vertex = Vertex(x: real, y: real, z: real, u: real, v: real)

  /** An axis-aligned rectangle: bottom-left corner (x, y), width w, height h. */
  datatype Rect = Rect(x: real, y: real, w: real, h: real)

  /** What one glDrawArrays(GL_TRIANGLES, 0, 6) call draws: the bound texture and the 6 vertices. */
  datatype DrawCall = DrawCall(texture: nat, vertices: seq<Vertex>)

  /** Floats per vertex and vertices per quad, as the buffer is allocated. */
  const VertexStride: nat := 5
  const QuadVertexCount: nat := 6
  const QuadFloats: nat := 30

  /** The vertex table of a quad at (x, y) of size (w, h): two triangles,
      top-left / bottom-left / bottom-right and top-left / bottom-right / top-right,
      with the texture flipped vertically (the top edge samples v = 0). */
  function QuadVertices(x: real, y: real, w: real, h: real): (t: seq<Vertex>)
    ensures |t| == QuadVertexCount
  {
    [ Vertex(x, y + h, 0.0, 0.0, 0.0),
      Vertex(x, y, 0.0, 0.0, 1.0),
      Vertex(x + w, y, 0.0, 1.0, 1.0),
      Vertex(x, y + h, 0.0, 0.0, 0.0),
      Vertex(x + w, y, 0.0, 1.0, 1.0),
      Vertex(x + w, y + h, 0.0, 1.0, 0.0) ]
  }

  /** Reads the rectangle back off a 6-vertex table: the bottom-left vertex and the
      far corner of the first triangle. */
  function QuadRect(t: seq<Vertex>): Rect
    requires |t| == QuadVertexCount
  {
    Rect(t[1].x, t[1].y, t[2].x - t[1].x, t[0].y - t[1].y)
  }

  /** A table is a well-formed flat quad: 6 vertices in the plane z = 0, two triangles
      sharing the top-left / bottom-right diagonal, axis-aligned edges, and the
      vertically flipped texture corners. */
  ghost predicate WellFormedQuad(t: seq<Vertex>)
  {
    && |t| == QuadVertexCount
    && (forall i :: 0 <= i < |t| ==> t[i].z == 0.0)
    && t[3] == t[0] && t[4] == t[2]
    && t[1].x == t[0].x && t[2].y == t[1].y
    && t[5].x == t[2].x && t[5].y == t[0].y
    && t[0].u == 0.0 && t[0].v == 0.0
    && t[1].u == 0.0 && t[1].v == 1.0
    && t[2].u == 1.0 && t[2].v == 1.0
    && t[5].u == 1.0 && t[5].v == 0.0
  }

  /** The rectangle is recovered from its table: (x, y, w, h) determines the quad and back. */
  lemma RectRoundTrip(x: real, y: real, w: real, h: real)
    ensures |QuadVertices(x, y, w, h)| == QuadVertexCount
    ensures QuadRect(QuadVertices(x, y, w, h)) == Rect(x, y, w, h)
  {
  }

  /** The tables QuadVertices builds are exactly the well-formed quads. */
  lemma QuadCharacterization(t: seq<Vertex>)
    requires |t| == QuadVertexCount
    ensures var r := QuadRect(t); WellFormedQuad(t) <==> t == QuadVertices(r.x, r.y, r.w, r.h)
  {
    var r := QuadRect(t);
    var q := QuadVertices(r.x, r.y, r.w, r.h);
    if WellFormedQuad(t) {
      assert forall i :: 0 <= i < 6 ==> t[i] == q[i];
    }
    if t == q {
      assert forall i :: 0 <= i < 6 ==> t[i].z == 0.0;
    }
  }

  /** The floats of one vertex in buffer order. */
  function Components(v: Vertex): (c: seq<real>)
    ensures |c| == VertexStride
  {
    [v.x, v.y, v.z, v.u, v.v]
  }

  /** The vertex table laid out as the contiguous float array uploaded to the buffer. */
  function Flatten(t: seq<Vertex>): seq<real>
  {
    if t == [] then [] else Components(t[0]) + Flatten(t[1..])
  }

  /** How the GPU reads the buffer back: attribute 0 is three floats at offset 0,
      attribute 1 two floats at offset 3, with a stride of five floats. */
  function Unflatten(f: seq<real>): (t: seq<Vertex>)
    requires |f| % VertexStride == 0
    ensures VertexStride * |t| == |f|
    decreases |f|
  {
    if f == [] then [] else [Vertex(f[0], f[1], f[2], f[3], f[4])] + Unflatten(f[5..])
  }

  lemma {:induction false} FlattenLength(t: seq<Vertex>)
    ensures |Flatten(t)| == VertexStride * |t|
  {
    if t != [] {
      FlattenLength(t[1..]);
    }
  }

  /** Component j of vertex i sits at float 5 * i + j of the buffer. */
  lemma {:induction false} FlattenAt(t: seq<Vertex>, i: nat, j: nat)
    requires i < |t| && j < VertexStride
    ensures |Flatten(t)| == VertexStride * |t|
    ensures Flatten(t)[VertexStride * i + j] == Components(t[i])[j]
  {
    FlattenLength(t);
    if i > 0 {
      FlattenAt(t[1..], i - 1, j);
      assert Flatten(t) == Components(t[0]) + Flatten(t[1..]);
    }
  }

  /** Decoding the uploaded floats with the attribute layout gives back the table. */
  lemma {:induction false} UnflattenFlatten(t: seq<Vertex>)
    ensures |Flatten(t)| % VertexStride == 0
    ensures Unflatten(Flatten(t)) == t
  {
    FlattenLength(t);
    if t != [] {
      var f := Flatten(t);
      assert f[5..] == Flatten(t[1..]);
      UnflattenFlatten(t[1..]);
    }
  }

  /** One quad fills the buffer exactly. */
  lemma QuadFillsBuffer(x: real, y: real, w: real, h: real)
    ensures |Flatten(QuadVertices(x, y, w, h))| == QuadFloats
  {
    FlattenLength(QuadVertices(x, y, w, h));
  }

  /** glBufferSubData at offset 0 with the whole table: every float of the buffer is replaced. */
  method Upload(vbo: array<real>, t: seq<Vertex>)
    requires vbo.Length == VertexStride * |t|
    modifies vbo
    ensures vbo[..] == Flatten(t)
  {
    var f := Flatten(t);
    FlattenLength(t);
    forall i | 0 <= i < vbo.Length {
      vbo[i] := f[i];
    }
  }

  /** The renderer of textured rectangles: it owns one vertex buffer of 6 x 5 floats. */
  class TextureRender {
    const vbo: array<real>
    /** The draw calls issued so far, in order. */
    ghost var Draws: seq<DrawCall>

    ghost predicate Valid()
      reads this
    {
      vbo.Length == QuadFloats
    }

    constructor ()
      ensures Valid() && fresh(vbo) && Draws == []
    {
      vbo := new real[QuadFloats];
      Draws := [];
    }

    /** Builds the quad of (x, y, w, h), overwrites the whole buffer with it and draws it
        with the given texture. The buffer afterwards depends on (x, y, w, h) alone. */
    method Draw(texture: nat, x: real, y: real, w: real, h: real)
      requires Valid()
      modifies this, vbo
      ensures Valid()
      ensures vbo[..] == Flatten(QuadVertices(x, y, w, h))
      ensures Unflatten(vbo[..]) == QuadVertices(x, y, w, h)
      ensures Draws == old(Draws) + [DrawCall(texture, QuadVertices(x, y, w, h))]
    {
      var vertices := QuadVertices(x, y, w, h);
      Upload(vbo, vertices);
      UnflattenFlatten(vertices);
      Draws := Draws + [DrawCall(texture, vertices)];
    }
  }
}
