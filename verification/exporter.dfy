/**
 * The export operator: turns the selected mesh objects into a 3MF model
 * document and writes it, with the two package parts, into a ZIP archive.
 */
module Exporter {
  import opened Sequences
  import opened Numerals
  import opened Xml
  import opened Package

  /** A vertex position; the coordinate type is left open (Blender uses floats). */
  datatype Vertex<C> = Vertex(x: C, y: C, z: C)

  /** A mesh: vertex positions and polygons given as lists of vertex indices. */
  datatype Mesh<C> = Mesh(vertices: seq<Vertex<C>>, polygons: seq<seq<nat>>)

  /**
   * A selected scene object: its name, its Blender type (`"MESH"`,
   * `"CURVE"`, ...) and the mesh Blender yields for it once the dependency
   * graph has evaluated it and bmesh has triangulated its faces.
   */
  datatype SceneObject<C> = SceneObject(name: string, kind: string, evaluated: Mesh<C>)

  /** A tag written without a namespace. */
  function Bare(local: string): Name {
    Name("", local)
  }

  predicate IsMeshObject<C>(o: SceneObject<C>) {
    o.kind == "MESH"
  }

  /** `[obj for obj in selected if obj.type == 'MESH']`. */
  function MeshObjects<C>(selected: seq<SceneObject<C>>): (objs: seq<SceneObject<C>>)
    ensures forall k :: 0 <= k < |objs| ==> objs[k] in selected && IsMeshObject(objs[k])
    ensures forall i :: 0 <= i < |selected| && IsMeshObject(selected[i]) ==> selected[i] in objs
    ensures |objs| <= |selected|
  {
    FilterMembers(selected, IsMeshObject);
    Filter(selected, IsMeshObject)
  }

  /** There are mesh objects to export exactly when some selected object has type MESH. */
  lemma SomeMeshSelected<C>(selected: seq<SceneObject<C>>)
    ensures MeshObjects(selected) != [] <==> exists i :: 0 <= i < |selected| && selected[i].kind == "MESH"
  {
    var objs := MeshObjects(selected);
    if objs != [] {
      assert objs[0] in objs;
    } else {
      forall i | 0 <= i < |selected|
        ensures selected[i].kind != "MESH"
      {
        assert selected[i] in selected;
      }
    }
  }

  predicate IsTriangle(polygon: seq<nat>) {
    |polygon| == 3
  }

  /** The polygons that become `triangle` elements, in polygon order. */
  function Triangles(polygons: seq<seq<nat>>): (ts: seq<seq<nat>>)
    ensures forall k :: 0 <= k < |ts| ==> |ts[k]| == 3
  {
    var ts := Filter(polygons, IsTriangle);
    FilterMembers(polygons, IsTriangle);
    assert forall k :: 0 <= k < |ts| ==> ts[k] in ts;
    ts
  }

  /** A `vertex` element; `fmt` is `format(c, '.6f')`. */
  function VertexElement<C>(v: Vertex<C>, fmt: C -> string): Element {
    Element(Bare("vertex"), map["x" := fmt(v.x), "y" := fmt(v.y), "z" := fmt(v.z)], [])
  }

  /** A `triangle` element for a 3-vertex polygon, indices in polygon order. */
  function TriangleElement(polygon: seq<nat>): Element
    requires |polygon| == 3
  {
    Element(Bare("triangle"),
      map["v1" := NatToString(polygon[0]), "v2" := NatToString(polygon[1]), "v3" := NatToString(polygon[2])], [])
  }

  function VertexElements<C>(vertices: seq<Vertex<C>>, fmt: C -> string): seq<Element> {
    seq(|vertices|, k requires 0 <= k < |vertices| => VertexElement(vertices[k], fmt))
  }

  function TriangleElements(polygons: seq<seq<nat>>): seq<Element> {
    var ts := Triangles(polygons);
    seq(|ts|, k requires 0 <= k < |ts| => TriangleElement(ts[k]))
  }

  /** The `object` resource with resource id `id` for scene object `o`. */
  function ObjectElement<C>(id: nat, o: SceneObject<C>, fmt: C -> string): Element {
    Element(Bare("object"),
      map["id" := NatToString(id), "pid" := "1", "type" := "model", "name" := o.name],
      [Element(Bare("mesh"), map[], [
        Element(Bare("vertices"), map[], VertexElements(o.evaluated.vertices, fmt)),
        Element(Bare("triangles"), map[], TriangleElements(o.evaluated.polygons))])])
  }

  /** The build `item` that places the object with resource id `id`. */
  function ItemElement(id: nat): Element {
    Element(Bare("item"), map["objectid" := NatToString(id)], [])
  }

  /** The model document for the mesh objects `objs`, ids counted from 1. */
  function ModelDocument<C>(objs: seq<SceneObject<C>>, fmt: C -> string): Element {
    Element(Name(ModelNamespace, "model"), map["unit" := "millimeter"], [
      Element(Bare("resources"), map[], seq(|objs|, i requires 0 <= i < |objs| => ObjectElement(i + 1, objs[i], fmt))),
      Element(Bare("build"), map[], seq(|objs|, i requires 0 <= i < |objs| => ItemElement(i + 1)))])
  }

  /** The three archive entries, in the order they are written. */
  function PackageParts<C>(objs: seq<SceneObject<C>>, fmt: C -> string): seq<(string, Payload)> {
    [(ModelPath, Xml(InNamespace(ModelDocument(objs, fmt), ModelNamespace))),
     (ContentTypesPath, Xml(ContentTypesDocument)),
     (RelationshipsPath, Xml(RelationshipsDocument))]
  }

  /** The three parts are written under three distinct names, so the archive holds each of them. */
  lemma PackageEntries<C>(objs: seq<SceneObject<C>>, fmt: C -> string)
    ensures Entries(PackageParts(objs, fmt)) ==
      map[ModelPath := Xml(InNamespace(ModelDocument(objs, fmt), ModelNamespace)),
          ContentTypesPath := Xml(ContentTypesDocument),
          RelationshipsPath := Xml(RelationshipsDocument)]
  {
    var parts := PackageParts(objs, fmt);
    assert parts[..2] == parts[..3][..2] && parts[..1] == parts[..2][..1] && parts[..1][..0] == [];
    assert Entries(parts) == Entries(parts[..2])[RelationshipsPath := Xml(RelationshipsDocument)];
    assert Entries(parts[..2]) == Entries(parts[..1])[ContentTypesPath := Xml(ContentTypesDocument)];
    assert Entries(parts[..1]) == map[ModelPath := parts[0].1];
  }

  /**
   * What the export leaves behind: its outcome and the files afterwards. It
   * finishes exactly when some selected object is a mesh and writing raises
   * nothing, and it changes no file other than the one at `path`.
   */
  function ExportResult<C>(files: map<string, FileData>, path: string, selected: seq<SceneObject<C>>,
                           fmt: C -> string, fault: WriteFault): (r: (Outcome, map<string, FileData>))
    ensures r.0 in {Finished, Cancelled(NoMeshSelected), Cancelled(WriteFailed)}
    ensures r.0 == Finished <==> (exists i :: 0 <= i < |selected| && selected[i].kind == "MESH") && WriteSucceeds(fault, 3)
    ensures forall f :: f != path ==> (f in r.1 <==> f in files) && (f in r.1 ==> r.1[f] == files[f])
  {
    SomeMeshSelected(selected);
    var objs := MeshObjects(selected);
    if objs == [] then (Cancelled(NoMeshSelected), files)
    else
      var parts := PackageParts(objs, fmt);
      (if WriteSucceeds(fault, |parts|) then Finished else Cancelled(WriteFailed),
       FilesAfterWrite(files, path, parts, fault))
  }

  /** The loop over `mesh.vertices`: one `vertex` element per vertex, in mesh order. */
  method WriteVertices<C>(vertices: seq<Vertex<C>>, fmt: C -> string) returns (elems: seq<Element>)
    ensures |elems| == |vertices|
    ensures forall k :: 0 <= k < |elems| ==>
      elems[k].tag == Bare("vertex") && elems[k].children == [] &&
      elems[k].attrs == map["x" := fmt(vertices[k].x), "y" := fmt(vertices[k].y), "z" := fmt(vertices[k].z)]
    ensures elems == VertexElements(vertices, fmt)
  {
    elems := [];
    var i := 0;
    while i < |vertices|
      invariant 0 <= i <= |vertices|
      invariant |elems| == i
      invariant forall k :: 0 <= k < i ==> elems[k] == VertexElement(vertices[k], fmt)
    {
      elems := elems + [VertexElement(vertices[i], fmt)];
      i := i + 1;
    }
  }

  /** The loop over `mesh.polygons`: a `triangle` element for each 3-vertex polygon. */
  method WriteTriangles(polygons: seq<seq<nat>>) returns (elems: seq<Element>)
    ensures |elems| == |Triangles(polygons)|
    ensures forall k :: 0 <= k < |elems| ==>
      elems[k].tag == Bare("triangle") && elems[k].children == [] &&
      elems[k].attrs == map["v1" := NatToString(Triangles(polygons)[k][0]),
                            "v2" := NatToString(Triangles(polygons)[k][1]),
                            "v3" := NatToString(Triangles(polygons)[k][2])]
    ensures elems == TriangleElements(polygons)
  {
    elems := [];
    var i := 0;
    while i < |polygons|
      invariant 0 <= i <= |polygons|
      invariant elems == TriangleElements(polygons[..i])
    {
      assert polygons[..i + 1][..i] == polygons[..i];
      var polygon := polygons[i];
      if |polygon| == 3 {
        elems := elems + [TriangleElement(polygon)];
      }
      i := i + 1;
    }
    assert polygons[..|polygons|] == polygons;
  }

  /**
   * Builds the model tree for the mesh objects `objs`: the `model` root with
   * `resources` and `build`, then per object (id counted from 1) its
   * `object` resource and its build `item`.
   */
  method BuildModel<C>(objs: seq<SceneObject<C>>, fmt: C -> string) returns (model: Element)
    ensures model == ModelDocument(objs, fmt)
    ensures model.tag == Name(ModelNamespace, "model") && model.attrs == map["unit" := "millimeter"]
    ensures |model.children| == 2
    ensures model.children[0].tag == Bare("resources") && model.children[1].tag == Bare("build")
  {
    var objects: seq<Element> := [];
    var items: seq<Element> := [];
    var idx := 1;
    while idx <= |objs|
      invariant 1 <= idx <= |objs| + 1
      invariant |objects| == |items| == idx - 1
      invariant forall i :: 0 <= i < idx - 1 ==> objects[i] == ObjectElement(i + 1, objs[i], fmt)
      invariant forall i :: 0 <= i < idx - 1 ==> items[i] == ItemElement(i + 1)
    {
      var obj := objs[idx - 1];
      var vertexElems := WriteVertices(obj.evaluated.vertices, fmt);
      var triangleElems := WriteTriangles(obj.evaluated.polygons);
      var meshElem := Element(Bare("mesh"), map[], [
        Element(Bare("vertices"), map[], vertexElems),
        Element(Bare("triangles"), map[], triangleElems)]);
      var objectElem := Element(Bare("object"),
        map["id" := NatToString(idx), "pid" := "1", "type" := "model", "name" := obj.name], [meshElem]);
      objects := objects + [objectElem];
      items := items + [Element(Bare("item"), map["objectid" := NatToString(idx)], [])];
      idx := idx + 1;
    }
    assert objects == seq(|objs|, i requires 0 <= i < |objs| => ObjectElement(i + 1, objs[i], fmt));
    assert items == seq(|objs|, i requires 0 <= i < |objs| => ItemElement(i + 1));
    model := Element(Name(ModelNamespace, "model"), map["unit" := "millimeter"], [
      Element(Bare("resources"), map[], objects),
      Element(Bare("build"), map[], items)]);
  }

  /**
   * `Export3MF.execute`: cancels when no mesh object is selected; otherwise
   * builds the model and writes the archive, cancelling if writing raises.
   */
  method Execute<C>(fs: FileSystem, path: string, selected: seq<SceneObject<C>>, fmt: C -> string, fault: WriteFault)
    returns (outcome: Outcome)
    modifies fs
    ensures (outcome, fs.files) == ExportResult(old(fs.files), path, selected, fmt, fault)
    ensures (forall i :: 0 <= i < |selected| ==> selected[i].kind != "MESH") ==>
      outcome == Cancelled(NoMeshSelected) && fs.files == old(fs.files)
    ensures outcome == Finished <==>
      (exists i :: 0 <= i < |selected| && selected[i].kind == "MESH") && WriteSucceeds(fault, 3)
    ensures outcome == Finished ==>
      && path in fs.files
      && fs.files[path] == Zip(map[ModelPath := Xml(InNamespace(ModelDocument(MeshObjects(selected), fmt), ModelNamespace)),
                                  ContentTypesPath := Xml(ContentTypesDocument),
                                  RelationshipsPath := Xml(RelationshipsDocument)])
    ensures outcome != Finished ==> outcome in {Cancelled(NoMeshSelected), Cancelled(WriteFailed)}
  {
    var meshObjects := MeshObjects(selected);
    SomeMeshSelected(selected);
    if meshObjects == [] {
      return Cancelled(NoMeshSelected);
    }
    var model := BuildModel(meshObjects, fmt);
    var parts := [(ModelPath, Xml(InNamespace(model, ModelNamespace))),
                  (ContentTypesPath, Xml(ContentTypesDocument)),
                  (RelationshipsPath, Xml(RelationshipsDocument))];
    var ok := WriteArchive(fs, path, parts, fault);
    if !ok {
      return Cancelled(WriteFailed);
    }
    PackageEntries(meshObjects, fmt);
    assert parts == PackageParts(meshObjects, fmt);
    return Finished;
  }
}

module ExportProperties {
  import opened Options
  import opened Sequences
  import opened Numerals
  import opened Xml
  import opened Package
  import opened Exporter

  /** With no object of type MESH selected, export cancels and leaves every file as it was. */
  lemma NoMeshSelectedCancels<C>(files: map<string, FileData>, path: string, selected: seq<SceneObject<C>>,
                                 fmt: C -> string, fault: WriteFault)
    requires forall i :: 0 <= i < |selected| ==> selected[i].kind != "MESH"
    ensures ExportResult(files, path, selected, fmt, fault) == (Cancelled(NoMeshSelected), files)
  {
    FilterNone(selected, IsMeshObject);
  }

  /**
   * An exception while writing the archive cancels the export. When the file
   * cannot be opened every file stays as it was; when a `writestr` or the
   * closing of the archive raises, the file at `path` holds whatever was
   * left of it, and every other file stays as it was.
   */
  lemma WriteFailureCancels<C>(files: map<string, FileData>, path: string, selected: seq<SceneObject<C>>,
                               fmt: C -> string, fault: WriteFault)
    requires MeshObjects(selected) != []
    requires !WriteSucceeds(fault, 3)
    ensures ExportResult(files, path, selected, fmt, fault).0 == Cancelled(WriteFailed)
    ensures fault.OpenFails? ==> ExportResult(files, path, selected, fmt, fault).1 == files
    ensures !fault.OpenFails? ==> ExportResult(files, path, selected, fmt, fault).1 == files[path := fault.leftover]
  {
  }

  /**
   * Resource ids are 1..n in selection order and pairwise distinct; every
   * object carries `pid="1"`, `type="model"` and its scene object's name;
   * the build holds one `item` per object, in the same order, whose
   * `objectid` is that object's `id`.
   */
  lemma {:induction false} ResourceIds<C>(objs: seq<SceneObject<C>>, fmt: C -> string)
    ensures var model := ModelDocument(objs, fmt);
      var objects, items := model.children[0].children, model.children[1].children;
      && |objects| == |items| == |objs|
      && (forall i :: 0 <= i < |objects| ==>
            && objects[i].tag == Bare("object") && items[i].tag == Bare("item")
            && objects[i].attrs["id"] == NatToString(i + 1)
            && objects[i].attrs["pid"] == "1" && objects[i].attrs["type"] == "model"
            && objects[i].attrs["name"] == objs[i].name
            && items[i].attrs.Keys == {"objectid"}
            && items[i].attrs["objectid"] == objects[i].attrs["id"])
      && (forall i, j :: 0 <= i < j < |objects| ==> objects[i].attrs["id"] != objects[j].attrs["id"])
  {
    var objects := ModelDocument(objs, fmt).children[0].children;
    forall i, j | 0 <= i < j < |objects|
      ensures objects[i].attrs["id"] != objects[j].attrs["id"]
    {
      if NatToString(i + 1) == NatToString(j + 1) {
        NatToStringInjective(i + 1, j + 1);
      }
    }
  }

  /**
   * The `triangle` elements of a mesh correspond one to one, in order, to
   * its 3-vertex polygons: the k-th comes from polygon `src[k]`, the sources
   * ascend, every 3-vertex polygon is one of them, and `v1`, `v2`, `v3` are
   * that polygon's indices in its own order, so the winding is kept.
   */
  lemma TriangleSelection(polygons: seq<seq<nat>>)
    ensures var elems, src := TriangleElements(polygons), Positions(polygons, IsTriangle);
      && |elems| == |src|
      && (forall k :: 0 <= k < |src| ==>
            && src[k] < |polygons| && |polygons[src[k]]| == 3
            && elems[k].attrs == map["v1" := NatToString(polygons[src[k]][0]),
                                     "v2" := NatToString(polygons[src[k]][1]),
                                     "v3" := NatToString(polygons[src[k]][2])])
      && (forall k, l :: 0 <= k < l < |src| ==> src[k] < src[l])
      && (forall j :: 0 <= j < |polygons| && |polygons[j]| == 3 ==> j in src)
  {
    FilterAtPositions(polygons, IsTriangle);
  }

  /** After triangulation every polygon has three vertices, and then every polygon is written. */
  lemma TriangulatedMeshKeepsEveryPolygon(polygons: seq<seq<nat>>)
    requires forall j :: 0 <= j < |polygons| ==> |polygons[j]| == 3
    ensures Triangles(polygons) == polygons
    ensures |TriangleElements(polygons)| == |polygons|
  {
    FilterAll(polygons, IsTriangle);
  }

  /**
   * The numbers the document records read back as numbers: `int` of the
   * i-th object's `id` and of the i-th item's `objectid` is i + 1.
   */
  lemma IdsReadBack<C>(objs: seq<SceneObject<C>>, fmt: C -> string, i: nat)
    requires i < |objs|
    ensures var model := ModelDocument(objs, fmt);
      && ParseInt(model.children[0].children[i].attrs["id"]) == Some(i + 1)
      && ParseInt(model.children[1].children[i].attrs["objectid"]) == Some(i + 1)
  {
    var model := ModelDocument(objs, fmt);
    var id := NatToString(i + 1);
    assert model.children[0].children[i].attrs["id"] == id by {
      assert model.children[0].children[i] == ObjectElement(i + 1, objs[i], fmt);
    }
    assert model.children[1].children[i].attrs["objectid"] == id by {
      assert model.children[1].children[i] == ItemElement(i + 1);
    }
    ParseIntOfNatToString(i + 1);
  }
}
