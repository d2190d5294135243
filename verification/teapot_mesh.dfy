/**
  Loading the teapot: an indexed triangle mesh is flattened into the
  non-indexed vertex layout that `glDrawArrays(GL_TRIANGLES, ...)` consumes,
  three consecutive buffer entries per face. The vertex and normal element
  type is a type parameter, so no floating-point arithmetic is involved.
 */
module TeapotMesh {

  /** A triangular face: three indices into a vertex (or normal) table. */
  datatype TriFace = TriFace(v0: nat, v1: nat, v2: nat) {
    /** The index stored in slot `j` of the face's `v` array. */
    function Corner(j: nat): nat
      requires j < 3
    {
      if j == 0 then v0 else if j == 1 then v1 else v2
    }

    /** All three indices address a table of size `n`. */
    predicate Within(n: nat) {
      v0 < n && v1 < n && v2 < n
    }
  }

  /** The mesh as the OBJ loader leaves it: vertex table `v`, normal table
      `vn`, position faces `f` and normal faces `fn`. NV is `|v|`, NF is `|f|`. */
  datatype Mesh<T> = Mesh(v: seq<T>, vn: seq<T>, f: seq<TriFace>, fn: seq<TriFace>)

  /** Every corner of every face is a valid index into a table of size `n`. */
  ghost predicate IndexesInto(faces: seq<TriFace>, n: nat) {
    forall i :: 0 <= i < |faces| ==> faces[i].Within(n)
  }

  /** What the position loop needs: no position index is out of range
      (the loop itself does no bounds check). */
  ghost predicate HasPositions<T>(m: Mesh<T>) {
    IndexesInto(m.f, |m.v|)
  }

  /** What the normal loop needs: a normal face for each of the NF faces,
      each naming slots of the normal table. */
  ghost predicate HasNormals<T>(m: Mesh<T>) {
    |m.fn| >= |m.f| && IndexesInto(m.fn[..|m.f|], |m.vn|)
  }

  /** The vertex count given to both `glDrawArrays` calls for the teapot. */
  function DrawCount<T>(m: Mesh<T>): nat {
    |m.f| * 3
  }

  /** The three table entries a face names, in corner order. */
  function FaceEntries<T>(table: seq<T>, face: TriFace): seq<T>
    requires face.Within(|table|)
  {
    [table[face.v0], table[face.v1], table[face.v2]]
  }

  lemma DivMod3(k: int)
    requires k >= 3
    ensures (k - 3) / 3 == k / 3 - 1 && (k - 3) % 3 == k % 3
  {
  }

  /** Reference flattening: the faces' entries laid end to end. Entry `k` is
      corner `k % 3` of face `k / 3`. */
  function Flatten<T>(table: seq<T>, faces: seq<TriFace>): (r: seq<T>)
    requires IndexesInto(faces, |table|)
    ensures |r| == 3 * |faces|
    ensures forall k :: 0 <= k < |r| ==> r[k] == table[faces[k / 3].Corner(k % 3)]
  {
    if faces == [] then []
    else
      assert faces[0].Within(|table|);
      assert IndexesInto(faces[1..], |table|) by {
        forall i | 0 <= i < |faces| - 1
          ensures faces[1..][i].Within(|table|)
        {
          assert faces[1..][i] == faces[i + 1];
        }
      }
      var r := FaceEntries(table, faces[0]) + Flatten(table, faces[1..]);
      assert forall k :: 3 <= k < |r| ==> faces[1..][(k - 3) / 3] == faces[k / 3] && (k - 3) % 3 == k % 3 by {
        forall k | 3 <= k < |r|
          ensures faces[1..][(k - 3) / 3] == faces[k / 3] && (k - 3) % 3 == k % 3
        {
          DivMod3(k);
        }
      }
      r
  }

  /** The triangles `glDrawArrays(GL_TRIANGLES, 0, |buf|)` assembles: each
      three consecutive entries form one triangle. */
  function Triangles<T>(buf: seq<T>): (r: seq<seq<T>>)
    requires |buf| % 3 == 0
    ensures |r| * 3 == |buf|
    ensures forall t :: 0 <= t < |r| ==> |r[t]| == 3 && r[t] == buf[3 * t..3 * t + 3]
    decreases |buf|
  {
    if buf == [] then [] else [buf[..3]] + Triangles(buf[3..])
  }

  /** Drawing the flattened buffer as triangles gives back exactly the
      mesh's faces, each with its own three entries, in face order. */
  lemma {:induction false} TrianglesOfFlatten<T>(table: seq<T>, faces: seq<TriFace>)
    requires IndexesInto(faces, |table|)
    ensures |Triangles(Flatten(table, faces))| == |faces|
    ensures forall i :: 0 <= i < |faces| ==>
      Triangles(Flatten(table, faces))[i] == FaceEntries(table, faces[i])
  {
    var r := Flatten(table, faces);
    if faces != [] {
      assert faces[0].Within(|table|);
      assert IndexesInto(faces[1..], |table|) by {
        forall i | 0 <= i < |faces| - 1
          ensures faces[1..][i].Within(|table|)
        {
          assert faces[1..][i] == faces[i + 1];
        }
      }
      var rest := Flatten(table, faces[1..]);
      assert r == FaceEntries(table, faces[0]) + rest;
      assert r[..3] == FaceEntries(table, faces[0]);
      assert r[3..] == rest;
      TrianglesOfFlatten(table, faces[1..]);
      forall i | 0 <= i < |faces|
        ensures Triangles(r)[i] == FaceEntries(table, faces[i])
      {
        if i > 0 {
          assert Triangles(r)[i] == Triangles(rest)[i - 1];
          assert faces[1..][i - 1] == faces[i];
        }
      }
    }
  }

  /** The first loop of the loader (the `vertices` array): a copy of the
      vertex table. */
  method CopyVertices<T>(m: Mesh<T>) returns (vertices: seq<T>)
    ensures |vertices| == |m.v|
    ensures forall i :: 0 <= i < |m.v| ==> vertices[i] == m.v[i]
  {
    vertices := [];
    var i := 0;
    while i < |m.v|
      invariant 0 <= i <= |m.v|
      invariant vertices == m.v[..i]
    {
      vertices := vertices + [m.v[i]];
      i := i + 1;
    }
  }

  /** The nested face/corner loop writing `table[faces[i].v[j]]` to slot
      `3 * i + j`, for the `NF` faces `faces[..nf]`. */
  method FlattenLoop<T>(table: seq<T>, faces: seq<TriFace>, nf: nat) returns (out: seq<T>)
    requires nf <= |faces|
    requires IndexesInto(faces[..nf], |table|)
    ensures |out| == nf * 3
    ensures forall i, j {:trigger faces[i].Corner(j)} :: 0 <= i < nf && 0 <= j < 3 ==> out[3 * i + j] == table[faces[i].Corner(j)]
    ensures out == Flatten(table, faces[..nf])
  {
    out := [];
    var i := 0;
    while i < nf
      invariant 0 <= i <= nf
      invariant |out| == i * 3
      invariant forall k :: 0 <= k < |out| ==> out[k] == table[faces[k / 3].Corner(k % 3)]
    {
      var offset := i * 3;
      assert faces[..nf][i] == faces[i];
      var j := 0;
      while j < 3
        invariant 0 <= j <= 3
        invariant |out| == offset + j
        invariant forall k :: 0 <= k < |out| ==> out[k] == table[faces[k / 3].Corner(k % 3)]
      {
        assert faces[..nf][i].Within(|table|);
        assert (offset + j) / 3 == i && (offset + j) % 3 == j;
        out := out + [table[faces[i].Corner(j)]];
        j := j + 1;
      }
      i := i + 1;
    }
    forall i, j | 0 <= i < nf && 0 <= j < 3
      ensures out[3 * i + j] == table[faces[i].Corner(j)]
    {
      assert (3 * i + j) / 3 == i && (3 * i + j) % 3 == j;
    }
    var spec := Flatten(table, faces[..nf]);
    forall k | 0 <= k < |out|
      ensures out[k] == spec[k]
    {
      assert faces[..nf][k / 3] == faces[k / 3];
    }
  }

  /** The position buffer (loader lines for `positions`), flattened through
      the `vertices` copy rather than the mesh table itself. */
  method FlattenPositions<T>(m: Mesh<T>) returns (positions: seq<T>)
    requires HasPositions(m)
    ensures |positions| == DrawCount(m)
    ensures forall i, j {:trigger m.f[i].Corner(j)} :: 0 <= i < |m.f| && 0 <= j < 3 ==> positions[3 * i + j] == m.v[m.f[i].Corner(j)]
    ensures positions == Flatten(m.v, m.f)
  {
    var vertices := CopyVertices(m);
    assert vertices == m.v;
    assert m.f[..|m.f|] == m.f;
    positions := FlattenLoop(vertices, m.f, |m.f|);
  }

  /** The normal buffer: the normal table read through the normal faces. */
  method FlattenNormals<T>(m: Mesh<T>) returns (normals: seq<T>)
    requires HasNormals(m)
    ensures |normals| == DrawCount(m)
    ensures forall i, j {:trigger m.fn[i].Corner(j)} :: 0 <= i < |m.f| && 0 <= j < 3 ==> normals[3 * i + j] == m.vn[m.fn[i].Corner(j)]
    ensures normals == Flatten(m.vn, m.fn[..|m.f|])
  {
    normals := FlattenLoop(m.vn, m.fn, |m.f|);
  }

  /** The data half of `loadTeapot`: both vertex buffers, each holding
      exactly the `NF() * 3` entries the two draw calls read. */
  method LoadTeapot<T>(m: Mesh<T>) returns (positions: seq<T>, normals: seq<T>)
    requires HasPositions(m) && HasNormals(m)
    ensures |positions| == DrawCount(m) && |normals| == DrawCount(m)
    ensures forall i :: 0 <= i < |m.f| ==> Triangles(positions)[i] == FaceEntries(m.v, m.f[i])
    ensures forall i :: 0 <= i < |m.f| ==> Triangles(normals)[i] == FaceEntries(m.vn, m.fn[i])
  {
    positions := FlattenPositions(m);
    normals := FlattenNormals(m);
    TrianglesOfFlatten(m.v, m.f);
    TrianglesOfFlatten(m.vn, m.fn[..|m.f|]);
    forall i | 0 <= i < |m.f|
      ensures Triangles(normals)[i] == FaceEntries(m.vn, m.fn[i])
    {
      assert m.fn[..|m.f|][i] == m.fn[i];
    }
  }
}
