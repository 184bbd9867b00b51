/**
 * The import operator: opens a 3MF archive, walks the `object` elements of
 * its model document and creates one scene object per object that has a
 * `mesh`, from its vertex positions and triangle index triples.
 */
module Importer {
  import opened Options
  import opened Sequences
  import opened Numerals
  import opened Xml
  import opened Package

  /** A tag in the 3MF core namespace, the `m:` prefix of the lookups. */
  function Core(local: string): Name {
    Name(ModelNamespace, local)
  }

  /** What `from_pydata` receives for one mesh, and the name the mesh and its object get. */
  datatype ImportedMesh<F> = ImportedMesh(name: string, vertices: seq<(F, F, F)>, faces: seq<(int, int, int)>)

  /** The part of Blender's scene the importer adds to: the objects linked into the active collection. */
  class Scene<F> {
    var objects: seq<ImportedMesh<F>>

    constructor ()
      ensures objects == []
    {
      objects := [];
    }

    /** `bpy.data.objects.new(...)` followed by `collection.objects.link(obj)`. */
    method Link(m: ImportedMesh<F>)
      modifies this
      ensures objects == old(objects) + [m]
    {
      objects := objects + [m];
    }
  }

  /** `f"Imported_3MF_{idx}"`. */
  function MeshName(idx: nat): string {
    "Imported_3MF_" + NatToString(idx)
  }

  /** Objects at distinct positions get distinct names. */
  lemma MeshNamesDistinct(i: nat, j: nat)
    requires MeshName(i) == MeshName(j)
    ensures i == j
  {
    var prefix := "Imported_3MF_";
    assert MeshName(i)[|prefix|..] == NatToString(i);
    assert MeshName(j)[|prefix|..] == NatToString(j);
    NatToStringInjective(i, j);
  }

  /** `float(vertex.attrib.get(key, "0"))`; `parse` is Python's `float`, `None` its `ValueError`. */
  function ReadCoordinate<F>(vertex: Element, key: string, parse: string -> Option<F>): (r: Option<F>)
    ensures key !in vertex.attrs ==> r == parse("0")
  {
    parse(AttrOr(vertex, key, "0"))
  }

  function ReadVertex<F>(vertex: Element, parse: string -> Option<F>): Option<(F, F, F)> {
    match (ReadCoordinate(vertex, "x", parse), ReadCoordinate(vertex, "y", parse), ReadCoordinate(vertex, "z", parse))
    case (Some(x), Some(y), Some(z)) => Some((x, y, z))
    case _ => None
  }

  /** `int(triangle.attrib.get(key, 0))`: a missing index is 0, a present one is parsed by `int`. */
  function ReadIndex(triangle: Element, key: string): (r: Option<int>)
    ensures key !in triangle.attrs ==> r == Some(0)
    ensures key in triangle.attrs ==> r == ParseInt(triangle.attrs[key])
  {
    if key in triangle.attrs then ParseInt(triangle.attrs[key]) else Some(0)
  }

  function ReadFace(triangle: Element): Option<(int, int, int)> {
    match (ReadIndex(triangle, "v1"), ReadIndex(triangle, "v2"), ReadIndex(triangle, "v3"))
    case (Some(a), Some(b), Some(c)) => Some((a, b, c))
    case _ => None
  }

  /** An index attribute holding `str(n)` reads back as `n`, whatever the other attributes hold. */
  lemma ReadIndexOfWritten(tag: Name, attrs: map<string, string>, children: seq<Element>, key: string, n: nat)
    ensures ReadIndex(Element(tag, attrs[key := NatToString(n)], children), key) == Some(n)
  {
    ParseIntOfNatToString(n);
  }

  /**
   * A vertex without coordinates is read as three times `float("0")`, and a
   * vertex fails when `float` rejects one of its coordinates.
   */
  lemma ReadVertexDefaults<F>(vertex: Element, parse: string -> Option<F>)
    ensures "x" !in vertex.attrs && "y" !in vertex.attrs && "z" !in vertex.attrs ==>
      ReadVertex(vertex, parse) == (if parse("0").Some? then Some((parse("0").value, parse("0").value, parse("0").value)) else None)
    ensures (exists key :: key in ["x", "y", "z"] && key in vertex.attrs && parse(vertex.attrs[key]).None?) ==>
      ReadVertex(vertex, parse).None?
  {
  }

  /**
   * A triangle without indices is the face (0, 0, 0), and a triangle fails
   * when `int` rejects one of its indices.
   */
  lemma ReadFaceDefaults(triangle: Element)
    ensures "v1" !in triangle.attrs && "v2" !in triangle.attrs && "v3" !in triangle.attrs ==>
      ReadFace(triangle) == Some((0, 0, 0))
    ensures (exists key :: key in ["v1", "v2", "v3"] && key in triangle.attrs && ParseInt(triangle.attrs[key]).None?) ==>
      ReadFace(triangle).None?
  {
  }

  /**
   * The vertex list of a mesh: one position per `vertex` element, in
   * document order; `None` exactly when some coordinate does not parse.
   */
  function ReadVertices<F>(vertices: seq<Element>, parse: string -> Option<F>): (r: Option<seq<(F, F, F)>>)
    ensures r.None? <==> exists k :: 0 <= k < |vertices| && ReadVertex(vertices[k], parse).None?
    ensures r.Some? ==> |r.value| == |vertices|
    ensures r.Some? ==> forall k :: 0 <= k < |vertices| ==> ReadVertex(vertices[k], parse) == Some(r.value[k])
  {
    if vertices == [] then Some([])
    else
      var n := |vertices| - 1;
      assert forall k :: 0 <= k < n ==> vertices[..n][k] == vertices[k];
      match (ReadVertices(vertices[..n], parse), ReadVertex(vertices[n], parse))
      case (Some(vs), Some(v)) => Some(vs + [v])
      case _ => None
  }

  /**
   * The face list of a mesh: one index triple per `triangle` element, in
   * document order, with no check against the number of vertices; `None`
   * exactly when some index does not parse.
   */
  function ReadFaces(triangles: seq<Element>): (r: Option<seq<(int, int, int)>>)
    ensures r.None? <==> exists k :: 0 <= k < |triangles| && ReadFace(triangles[k]).None?
    ensures r.Some? ==> |r.value| == |triangles|
    ensures r.Some? ==> forall k :: 0 <= k < |triangles| ==> ReadFace(triangles[k]) == Some(r.value[k])
  {
    if triangles == [] then Some([])
    else
      var n := |triangles| - 1;
      assert forall k :: 0 <= k < n ==> triangles[..n][k] == triangles[k];
      match (ReadFaces(triangles[..n]), ReadFace(triangles[n]))
      case (Some(fs), Some(f)) => Some(fs + [f])
      case _ => None
  }

  /** What one `object` element, at position `idx` among all objects, contributes. */
  datatype ObjectResult<F> = Skipped | Created(mesh: ImportedMesh<F>) | Failed

  predicate HasMesh(obj: Element) {
    FindChild(obj, Core("mesh")).Some?
  }

  function ImportObject<F>(idx: nat, obj: Element, parse: string -> Option<F>): ObjectResult<F> {
    match FindChild(obj, Core("mesh"))
    case None => Skipped
    case Some(mesh) =>
      match (ReadVertices(FindPath(mesh, Core("vertices"), Core("vertex")), parse),
             ReadFaces(FindPath(mesh, Core("triangles"), Core("triangle"))))
      case (Some(vs), Some(fs)) => Created(ImportedMesh(MeshName(idx), vs, fs))
      case _ => Failed
  }

  predicate IsCreated<F>(r: ObjectResult<F>) {
    r.Created?
  }

  /** What every object contributes, by its position among all objects. */
  function ObjectResults<F>(objs: seq<Element>, parse: string -> Option<F>): (rs: seq<ObjectResult<F>>)
    ensures |rs| == |objs|
  {
    MapIndexed(objs, (i: nat, obj: Element) => ImportObject(i, obj, parse))
  }

  /** The result at position `i` is what the object at `i` yields. */
  lemma ResultAt<F>(objs: seq<Element>, parse: string -> Option<F>, i: nat)
    requires i < |objs|
    ensures ObjectResults(objs, parse)[i] == ImportObject(i, objs[i], parse)
  {
    MapIndexedAt(objs, (i: nat, obj: Element) => ImportObject(i, obj, parse), i);
  }

  /** The meshes created so far, and whether an exception has stopped the walk. */
  datatype Walked<F> = Walked(meshes: seq<ImportedMesh<F>>, failed: bool)

  /**
   * Taking the results `rs` in order: created meshes accumulate, skipped
   * objects add nothing, and the first failure stops the walk, keeping the
   * meshes created before it.
   */
  function Collect<F>(rs: seq<ObjectResult<F>>): Walked<F> {
    if rs == [] then Walked([], false)
    else Advance(Collect(rs[..|rs| - 1]), rs[|rs| - 1])
  }

  /** One step of the walk: the result `r` of the next object, taken after `w`. */
  function Advance<F>(w: Walked<F>, r: ObjectResult<F>): Walked<F> {
    if w.failed then w
    else
      match r
      case Skipped => w
      case Created(m) => Walked(w.meshes + [m], false)
      case Failed => Walked(w.meshes, true)
  }

  /** The walk over the `object` elements `objs`, in document order. */
  function Walk<F>(objs: seq<Element>, parse: string -> Option<F>): Walked<F> {
    Collect(ObjectResults(objs, parse))
  }

  /** The `object` elements anywhere below the model root, in document order. */
  function Objects(root: Element): seq<Element> {
    FindDescendants(root, Core("object"))
  }

  /**
   * What the import leaves behind: its outcome and the meshes it linked into
   * the scene. It finishes only for a ZIP archive whose model entry parses,
   * and links nothing when it cancels or the XML is malformed.
   */
  function ImportResult<F>(files: map<string, FileData>, path: string, parse: string -> Option<F>)
    : (r: (Outcome, seq<ImportedMesh<F>>))
    ensures r.0 in {Finished, Cancelled(NotAZip), Cancelled(ModelPartMissing), Raised(MalformedXml), Raised(BadNumber)}
    ensures r.0 == Finished ==>
      path in files && files[path].Zip? && ModelPath in files[path].entries && files[path].entries[ModelPath].Xml?
    ensures r.0.Cancelled? || r.0 == Raised(MalformedXml) ==> r.1 == []
  {
    if path !in files || files[path].NotZip? then (Cancelled(NotAZip), [])
    else if ModelPath !in files[path].entries then (Cancelled(ModelPartMissing), [])
    else
      match files[path].entries[ModelPath]
      case Malformed => (Raised(MalformedXml), [])
      case Xml(root) =>
        var w := Walk(Objects(root), parse);
        (if w.failed then Raised(BadNumber) else Finished, w.meshes)
  }

  /** The loop over `mesh_tag.findall("m:vertices/m:vertex")`. */
  method ReadVertexList<F>(mesh: Element, parse: string -> Option<F>) returns (vertices: seq<(F, F, F)>, ok: bool)
    ensures ok == ReadVertices(FindPath(mesh, Core("vertices"), Core("vertex")), parse).Some?
    ensures ok ==> vertices == ReadVertices(FindPath(mesh, Core("vertices"), Core("vertex")), parse).value
  {
    var elems := FindPath(mesh, Core("vertices"), Core("vertex"));
    vertices := [];
    var i := 0;
    while i < |elems|
      invariant 0 <= i <= |elems|
      invariant ReadVertices(elems[..i], parse) == Some(vertices)
    {
      assert elems[..i + 1][..i] == elems[..i];
      var x := ReadCoordinate(elems[i], "x", parse);
      var y := ReadCoordinate(elems[i], "y", parse);
      var z := ReadCoordinate(elems[i], "z", parse);
      if x.None? || y.None? || z.None? {
        assert ReadVertices(elems[..i + 1], parse).None?;
        ReadVerticesExtends(elems, i + 1, parse);
        return [], false;
      }
      vertices := vertices + [(x.value, y.value, z.value)];
      i := i + 1;
    }
    assert elems[..|elems|] == elems;
    ok := true;
  }

  /** The loop over `mesh_tag.findall("m:triangles/m:triangle")`. */
  method ReadFaceList(mesh: Element) returns (faces: seq<(int, int, int)>, ok: bool)
    ensures ok == ReadFaces(FindPath(mesh, Core("triangles"), Core("triangle"))).Some?
    ensures ok ==> faces == ReadFaces(FindPath(mesh, Core("triangles"), Core("triangle"))).value
  {
    var elems := FindPath(mesh, Core("triangles"), Core("triangle"));
    faces := [];
    var i := 0;
    while i < |elems|
      invariant 0 <= i <= |elems|
      invariant ReadFaces(elems[..i]) == Some(faces)
    {
      assert elems[..i + 1][..i] == elems[..i];
      var v1 := ReadIndex(elems[i], "v1");
      var v2 := ReadIndex(elems[i], "v2");
      var v3 := ReadIndex(elems[i], "v3");
      if v1.None? || v2.None? || v3.None? {
        assert ReadFaces(elems[..i + 1]).None?;
        ReadFacesExtends(elems, i + 1);
        return [], false;
      }
      faces := faces + [(v1.value, v2.value, v3.value)];
      i := i + 1;
    }
    assert elems[..|elems|] == elems;
    ok := true;
  }

  /** A vertex that fails to parse makes the whole list fail. */
  lemma ReadVerticesExtends<F>(vertices: seq<Element>, i: nat, parse: string -> Option<F>)
    requires i <= |vertices| && ReadVertices(vertices[..i], parse).None?
    ensures ReadVertices(vertices, parse).None?
  {
    var k :| 0 <= k < i && ReadVertex(vertices[..i][k], parse).None?;
    assert vertices[..i][k] == vertices[k];
  }

  /** A triangle that fails to parse makes the whole list fail. */
  lemma ReadFacesExtends(triangles: seq<Element>, i: nat)
    requires i <= |triangles| && ReadFaces(triangles[..i]).None?
    ensures ReadFaces(triangles).None?
  {
    var k :| 0 <= k < i && ReadFace(triangles[..i][k]).None?;
    assert triangles[..i][k] == triangles[k];
  }

  /**
   * `Import3MF.execute`: cancels for a file that is not a ZIP archive or has
   * no model entry; otherwise links one object into the scene per `object`
   * element with a `mesh`, in document order. A parse error raises out of
   * the loop, and the objects linked before it stay in the scene.
   */
  method Execute<F>(fs: FileSystem, path: string, scene: Scene<F>, parse: string -> Option<F>) returns (outcome: Outcome)
    modifies scene
    ensures outcome == ImportResult(fs.files, path, parse).0
    ensures scene.objects == old(scene.objects) + ImportResult(fs.files, path, parse).1
    ensures outcome in {Finished, Cancelled(NotAZip), Cancelled(ModelPartMissing), Raised(MalformedXml), Raised(BadNumber)}
    ensures outcome.Cancelled? || outcome == Raised(MalformedXml) ==> scene.objects == old(scene.objects)
  {
    if path !in fs.files || fs.files[path].NotZip? {
      return Cancelled(NotAZip);
    }
    var entries := fs.files[path].entries;
    if ModelPath !in entries {
      return Cancelled(ModelPartMissing);
    }
    if entries[ModelPath].Malformed? {
      return Raised(MalformedXml);
    }
    var ok := LinkObjects(Objects(entries[ModelPath].root), scene, parse);
    return if ok then Finished else Raised(BadNumber);
  }

  /**
   * The body of the object loop up to the creation of the mesh: the `mesh`
   * lookup, then the vertex loop, then the triangle loop.
   */
  method ReadObject<F>(objs: seq<Element>, idx: nat, parse: string -> Option<F>) returns (result: ObjectResult<F>)
    requires idx < |objs|
    ensures result == ObjectResults(objs, parse)[idx]
  {
    ResultAt(objs, parse, idx);
    var obj := objs[idx];
    var meshTag := FindChild(obj, Core("mesh"));
    if meshTag.None? {
      return Skipped;
    }
    var vertices, okVertices := ReadVertexList(meshTag.value, parse);
    if !okVertices {
      return Failed;
    }
    var faces, okFaces := ReadFaceList(meshTag.value);
    if !okFaces {
      return Failed;
    }
    return Created(ImportedMesh(MeshName(idx), vertices, faces));
  }

  /**
   * The `for idx, object_tag in enumerate(...)` loop: skips an object
   * without a `mesh` (its position is still counted) and links one scene
   * object per other object; `ok` is false when a number failed to parse.
   */
  method LinkObjects<F>(objs: seq<Element>, scene: Scene<F>, parse: string -> Option<F>) returns (ok: bool)
    modifies scene
    ensures ok == !Walk(objs, parse).failed
    ensures scene.objects == old(scene.objects) + Walk(objs, parse).meshes
  {
    ghost var rs := ObjectResults(objs, parse);
    ghost var walked := Walked([], false);
    var idx := 0;
    while idx < |objs|
      invariant 0 <= idx <= |objs|
      invariant walked == CollectPrefix(rs, idx) && !walked.failed
      invariant scene.objects == old(scene.objects) + walked.meshes
    {
      var result := ReadObject(objs, idx, parse);
      walked := Advance(walked, result);
      if result.Failed? {
        CollectPrefixIsCollect(rs, idx + 1);
        CollectStaysFailed(rs, idx + 1);
        return false;
      }
      if result.Created? {
        scene.Link(result.mesh);
      }
      idx := idx + 1;
    }
    CollectPrefixIsCollect(rs, |rs|);
    assert rs[..|rs|] == rs;
    return true;
  }

  /**
   * The walk over the first `n` results. `Collect` takes a slice apart from
   * its end; the loop of `LinkObjects` keeps this form, indexed by a count,
   * so that each iteration unfolds one step without reasoning about slices.
   */
  function CollectPrefix<F>(rs: seq<ObjectResult<F>>, n: nat): Walked<F>
    requires n <= |rs|
  {
    if n == 0 then Walked([], false) else Advance(CollectPrefix(rs, n - 1), rs[n - 1])
  }

  /** Walking the first `n` results is walking the prefix of length `n`. */
  lemma {:induction false} CollectPrefixIsCollect<F>(rs: seq<ObjectResult<F>>, n: nat)
    requires n <= |rs|
    ensures CollectPrefix(rs, n) == Collect(rs[..n])
  {
    if n > 0 {
      CollectPrefixIsCollect(rs, n - 1);
      assert rs[..n][..n - 1] == rs[..n - 1];
    }
  }

  /** Once the walk has stopped on an exception, later objects change nothing. */
  lemma {:induction false} CollectStaysFailed<F>(rs: seq<ObjectResult<F>>, i: nat)
    requires i <= |rs| && Collect(rs[..i]).failed
    ensures Collect(rs) == Collect(rs[..i])
    decreases |rs| - i
  {
    if i < |rs| {
      assert rs[..i + 1][..i] == rs[..i];
      CollectStaysFailed(rs, i + 1);
    } else {
      assert rs[..i] == rs;
    }
  }
}

module ImportProperties {
  import opened Options
  import opened Sequences
  import opened Numerals
  import opened Xml
  import opened Package
  import opened Importer

  /** An object contributes a mesh exactly when it has a `mesh` child, and the mesh is named after its position. */
  lemma ImportObjectCases<F>(idx: nat, obj: Element, parse: string -> Option<F>)
    ensures ImportObject(idx, obj, parse).Skipped? <==> !HasMesh(obj)
    ensures ImportObject(idx, obj, parse).Created? ==> ImportObject(idx, obj, parse).mesh.name == MeshName(idx)
  {
  }

  /**
   * A collection that did not stop on a failure met no failure, and its
   * meshes are those of the created results, in order.
   */
  lemma {:induction false} CollectCreates<F>(rs: seq<ObjectResult<F>>)
    requires !Collect(rs).failed
    ensures forall j :: 0 <= j < |rs| ==> !rs[j].Failed?
    ensures |Collect(rs).meshes| == |Positions(rs, IsCreated)|
    ensures forall k :: 0 <= k < |Positions(rs, IsCreated)| ==>
      rs[Positions(rs, IsCreated)[k]] == Created(Collect(rs).meshes[k])
  {
    if rs != [] {
      var n := |rs| - 1;
      var init := rs[..n];
      CollectCreates(init);
      var src, srcInit := Positions(rs, IsCreated), Positions(init, IsCreated);
      assert src == srcInit + (if IsCreated(rs[n]) then [n] else []);
      forall k | 0 <= k < |srcInit|
        ensures rs[srcInit[k]] == init[srcInit[k]]
      {
      }
      forall j | 0 <= j < n
        ensures rs[j] == init[j]
      {
      }
    }
  }

  /**
   * A walk that raised nothing creates exactly one mesh per object that has
   * a `mesh` child, in document order: the k-th mesh comes from the object
   * at position `src[k]` among ALL objects and is named after that position
   * (so names skip the positions of mesh-less objects); the positions ascend
   * and every object with a mesh is among them.
   */
  lemma OneMeshPerMeshObject<F>(objs: seq<Element>, parse: string -> Option<F>)
    requires !Walk(objs, parse).failed
    ensures var meshes, src := Walk(objs, parse).meshes, Positions(objs, HasMesh);
      && |meshes| == |src|
      && (forall k :: 0 <= k < |src| ==>
            && src[k] < |objs| && HasMesh(objs[src[k]])
            && ImportObject(src[k], objs[src[k]], parse) == Created(meshes[k])
            && meshes[k].name == MeshName(src[k]))
      && (forall k, l :: 0 <= k < l < |src| ==> src[k] < src[l])
      && (forall j :: 0 <= j < |objs| && HasMesh(objs[j]) ==> j in src)
  {
    var rs := ObjectResults(objs, parse);
    CollectCreates(rs);
    forall j | 0 <= j < |objs|
      ensures rs[j] == ImportObject(j, objs[j], parse) && IsCreated(rs[j]) == HasMesh(objs[j])
    {
      ResultAt(objs, parse, j);
      ImportObjectCases(j, objs[j], parse);
    }
    PositionsAgree(rs, IsCreated, objs, HasMesh);
    FilterAtPositions(objs, HasMesh);
    var src := Positions(objs, HasMesh);
    forall k | 0 <= k < |src|
      ensures Walk(objs, parse).meshes[k].name == MeshName(src[k])
    {
      ImportObjectCases(src[k], objs[src[k]], parse);
    }
  }

  /**
   * Indices are not checked against the vertex list: a triangle naming
   * vertex 7 of a mesh without vertices, its other indices missing, is
   * passed on as the face (7, 0, 0).
   */
  lemma OutOfRangeIndexPassesThrough<F>(parse: string -> Option<F>)
    ensures var triangle := Element(Core("triangle"), map["v1" := "7"], []);
      var obj := Element(Core("object"), map[], [
        Element(Core("mesh"), map[], [Element(Core("triangles"), map[], [triangle])])]);
      ImportObject(0, obj, parse) == Created(ImportedMesh(MeshName(0), [], [(7, 0, 0)]))
  {
    var triangle := Element(Core("triangle"), map["v1" := "7"], []);
    var triangles := Element(Core("triangles"), map[], [triangle]);
    var mesh := Element(Core("mesh"), map[], [triangles]);
    var obj := Element(Core("object"), map[], [mesh]);
    assert NatToString(7) == "7";
    ParseIntOfNatToString(7);
    assert ReadFace(triangle) == Some((7, 0, 0));
    var faces := ReadFaces([triangle]);
    assert faces.Some? && |faces.value| == 1 && faces.value[0] == (7, 0, 0);
    assert faces.value == [(7, 0, 0)];
    FilterNone(mesh.children, Tagged(Core("vertices")));
    FilterAll(mesh.children, Tagged(Core("triangles")));
    FilterAll(triangles.children, Tagged(Core("triangle")));
    assert FindPath(mesh, Core("vertices"), Core("vertex")) == [];
    assert ChildrenOfAll([triangles], Core("triangle")) == [triangle] by {
      assert [triangles][..0] == [];
    }
    assert FindChild(obj, Core("mesh")) == Some(mesh);
    assert FindPath(mesh, Core("triangles"), Core("triangle")) == [triangle];
  }
}
