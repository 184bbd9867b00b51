/**
 * Exporting mesh objects and importing the archive written gives back, per
 * object and in selection order, a mesh with the same vertex count and the
 * same triangle index triples in the same order.
 */
module RoundTrip {
  import opened Options
  import opened Sequences
  import opened Numerals
  import opened Xml
  import opened Package
  import opened Exporter
  import opened Importer

  /** The face triples the importer reads for the triangles the exporter writes. */
  function FaceTriples(polygons: seq<seq<nat>>): seq<(int, int, int)> {
    var ts := Triangles(polygons);
    seq(|ts|, k requires 0 <= k < |ts| => (ts[k][0] as int, ts[k][1] as int, ts[k][2] as int))
  }

  /** The positions the importer reads for the vertices the exporter writes. */
  function ExpectedVertices<C(!new), F>(vs: seq<Vertex<C>>, fmt: C -> string, parse: string -> Option<F>): seq<(F, F, F)>
    requires forall c :: parse(fmt(c)).Some?
  {
    seq(|vs|, k requires 0 <= k < |vs| =>
      (parse(fmt(vs[k].x)).value, parse(fmt(vs[k].y)).value, parse(fmt(vs[k].z)).value))
  }

  /** The mesh the importer creates for the i-th exported object. */
  function ExpectedMesh<C(!new), F>(i: nat, o: SceneObject<C>, fmt: C -> string, parse: string -> Option<F>): ImportedMesh<F>
    requires forall c :: parse(fmt(c)).Some?
  {
    ImportedMesh(MeshName(i), ExpectedVertices(o.evaluated.vertices, fmt, parse), FaceTriples(o.evaluated.polygons))
  }

  /** An exported object, as the importer reads it back. */
  function WrittenObject<C>(i: nat, o: SceneObject<C>, fmt: C -> string): Element {
    InNamespace(ObjectElement(i + 1, o, fmt), ModelNamespace)
  }

  /** The exported objects, as the importer reads them back. */
  function WrittenObjects<C>(objs: seq<SceneObject<C>>, fmt: C -> string): seq<Element> {
    seq(|objs|, i requires 0 <= i < |objs| => WrittenObject(i, objs[i], fmt))
  }

  /** An exported `vertices` element, as the importer reads it back. */
  function WrittenVertices<C>(o: SceneObject<C>, fmt: C -> string): Element {
    var vs := o.evaluated.vertices;
    Element(Core("vertices"), map[],
      seq(|vs|, k requires 0 <= k < |vs| => Element(Core("vertex"), VertexElement(vs[k], fmt).attrs, [])))
  }

  /** An exported `triangles` element, as the importer reads it back. */
  function WrittenTriangles<C>(o: SceneObject<C>): Element {
    var ts := Triangles(o.evaluated.polygons);
    Element(Core("triangles"), map[],
      seq(|ts|, k requires 0 <= k < |ts| => Element(Core("triangle"), TriangleElement(ts[k]).attrs, [])))
  }

  /** An exported `mesh` element, as the importer reads it back. */
  function WrittenMesh<C>(o: SceneObject<C>, fmt: C -> string): Element {
    Element(Core("mesh"), map[], [WrittenVertices(o, fmt), WrittenTriangles(o)])
  }

  /** Every tag written without a namespace is read back in the 3MF core namespace. */
  lemma WrittenObjectShape<C>(i: nat, o: SceneObject<C>, fmt: C -> string)
    ensures WrittenObject(i, o, fmt).tag == Core("object")
    ensures WrittenObject(i, o, fmt).children == [WrittenMesh(o, fmt)]
  {
    var ns := ModelNamespace;
    var e := ObjectElement(i + 1, o, fmt);
    var obj := InNamespace(e, ns);
    var m := InNamespace(e.children[0], ns);
    assert obj.children == [m];
    var v := InNamespace(e.children[0].children[0], ns);
    var t := InNamespace(e.children[0].children[1], ns);
    assert m.children == [v, t];
    var vs := o.evaluated.vertices;
    forall k | 0 <= k < |vs|
      ensures v.children[k] == WrittenVertices(o, fmt).children[k]
    {
      assert e.children[0].children[0].children[k] == VertexElement(vs[k], fmt);
    }
    assert v == WrittenVertices(o, fmt);
    var ts := Triangles(o.evaluated.polygons);
    forall k | 0 <= k < |ts|
      ensures t.children[k] == WrittenTriangles(o).children[k]
    {
      assert e.children[0].children[1].children[k] == TriangleElement(ts[k]);
    }
    assert t == WrittenTriangles(o);
  }

  lemma FilterPair(a: Element, b: Element, tag: Name)
    requires a.tag == tag && b.tag != tag
    ensures Filter([a, b], Tagged(tag)) == [a]
  {
    assert [a, b][..1] == [a] && [a][..0] == [];
  }

  lemma FilterPairSecond(a: Element, b: Element, tag: Name)
    requires a.tag != tag && b.tag == tag
    ensures Filter([a, b], Tagged(tag)) == [b]
  {
    assert [a, b][..1] == [a] && [a][..0] == [];
  }

  /** The `inner` children of a single parent whose children all carry that tag are all its children. */
  lemma ChildrenOfOne(e: Element, tag: Name)
    requires forall k :: 0 <= k < |e.children| ==> e.children[k].tag == tag
    ensures ChildrenOfAll([e], tag) == e.children
  {
    assert [e][..0] == [];
    FilterAll(e.children, Tagged(tag));
  }

  /** The importer's two paths into an exported mesh reach the written vertices and triangles. */
  lemma WrittenMeshPaths<C>(o: SceneObject<C>, fmt: C -> string)
    ensures FindPath(WrittenMesh(o, fmt), Core("vertices"), Core("vertex")) == WrittenVertices(o, fmt).children
    ensures FindPath(WrittenMesh(o, fmt), Core("triangles"), Core("triangle")) == WrittenTriangles(o).children
  {
    var v, t := WrittenVertices(o, fmt), WrittenTriangles(o);
    FilterPair(v, t, Core("vertices"));
    FilterPairSecond(v, t, Core("triangles"));
    ChildrenOfOne(v, Core("vertex"));
    ChildrenOfOne(t, Core("triangle"));
  }

  /** Reading the exported vertices gives what `float` makes of the written coordinates. */
  lemma WrittenVerticesRead<C(!new), F>(o: SceneObject<C>, fmt: C -> string, parse: string -> Option<F>)
    requires forall c :: parse(fmt(c)).Some?
    ensures ReadVertices(WrittenVertices(o, fmt).children, parse) == Some(ExpectedVertices(o.evaluated.vertices, fmt, parse))
  {
    var elems := WrittenVertices(o, fmt).children;
    var expected := ExpectedVertices(o.evaluated.vertices, fmt, parse);
    forall k | 0 <= k < |elems|
      ensures ReadVertex(elems[k], parse) == Some(expected[k])
    {
    }
    var r := ReadVertices(elems, parse);
    assert r.Some?;
    assert r.value == expected;
  }

  /** Reading an exported triangle gives its polygon's index triple. */
  lemma WrittenTriangleRead(polygon: seq<nat>)
    requires |polygon| == 3
    ensures ReadFace(Element(Core("triangle"), TriangleElement(polygon).attrs, [])) ==
      Some((polygon[0] as int, polygon[1] as int, polygon[2] as int))
  {
    ParseIntOfNatToString(polygon[0]);
    ParseIntOfNatToString(polygon[1]);
    ParseIntOfNatToString(polygon[2]);
  }

  /** Reading the exported triangles gives the triangles' index triples, in polygon order. */
  lemma WrittenFacesRead<C>(o: SceneObject<C>)
    ensures ReadFaces(WrittenTriangles(o).children) == Some(FaceTriples(o.evaluated.polygons))
  {
    var elems := WrittenTriangles(o).children;
    var ts := Triangles(o.evaluated.polygons);
    var expected := FaceTriples(o.evaluated.polygons);
    forall k | 0 <= k < |elems|
      ensures ReadFace(elems[k]) == Some(expected[k])
    {
      WrittenTriangleRead(ts[k]);
    }
    var r := ReadFaces(elems);
    assert r.Some?;
    assert r.value == expected;
  }

  /** Importing an exported object creates the mesh it was written from. */
  lemma WrittenObjectImports<C(!new), F>(i: nat, o: SceneObject<C>, fmt: C -> string, parse: string -> Option<F>)
    requires forall c :: parse(fmt(c)).Some?
    ensures ImportObject(i, WrittenObject(i, o, fmt), parse) == Created(ExpectedMesh(i, o, fmt, parse))
  {
    WrittenObjectShape(i, o, fmt);
    assert FindChild(WrittenObject(i, o, fmt), Core("mesh")) == Some(WrittenMesh(o, fmt));
    WrittenMeshPaths(o, fmt);
    WrittenVerticesRead(o, fmt, parse);
    WrittenFacesRead(o);
  }

  /** No `object` element lies inside an exported object. */
  lemma NoObjectInsideWrittenObject<C>(i: nat, o: SceneObject<C>, fmt: C -> string)
    ensures NoneTagged(WrittenObject(i, o, fmt).children, Core("object"))
  {
    WrittenObjectShape(i, o, fmt);
    var v, t := WrittenVertices(o, fmt), WrittenTriangles(o);
    assert NoneTagged(v.children, Core("object")) by {
      forall k | 0 <= k < |v.children|
        ensures NoneTagged(v.children[k].children, Core("object"))
      {
        assert v.children[k].children == [];
      }
    }
    assert NoneTagged(t.children, Core("object")) by {
      forall k | 0 <= k < |t.children|
        ensures NoneTagged(t.children[k].children, Core("object"))
      {
        assert t.children[k].children == [];
      }
    }
    assert NoneTagged(WrittenMesh(o, fmt).children, Core("object"));
  }

  /** Every tag of the written model document is read back in the 3MF core namespace. */
  lemma WrittenModelShape<C>(objs: seq<SceneObject<C>>, fmt: C -> string)
    ensures var root := InNamespace(ModelDocument(objs, fmt), ModelNamespace);
      && |root.children| == 2
      && root.children[0] == Element(Core("resources"), map[], WrittenObjects(objs, fmt))
      && root.children[1].tag == Core("build")
      && forall j :: 0 <= j < |root.children[1].children| ==>
           root.children[1].children[j].tag == Core("item") && root.children[1].children[j].children == []
    ensures NoneTagged([InNamespace(ModelDocument(objs, fmt), ModelNamespace).children[1]], Core("object"))
  {
    var ns := ModelNamespace;
    var doc := ModelDocument(objs, fmt);
    var root := InNamespace(doc, ns);
    var resources := root.children[0];
    assert resources == InNamespace(doc.children[0], ns);
    forall i | 0 <= i < |objs|
      ensures resources.children[i] == WrittenObjects(objs, fmt)[i]
    {
      assert doc.children[0].children[i] == ObjectElement(i + 1, objs[i], fmt);
    }
    assert resources.children == WrittenObjects(objs, fmt);
    var build := root.children[1];
    assert build == InNamespace(doc.children[1], ns);
    forall j | 0 <= j < |build.children|
      ensures build.children[j].tag == Core("item") && build.children[j].children == []
      ensures NoneTagged(build.children[j].children, Core("object"))
    {
      assert doc.children[1].children[j] == ItemElement(j + 1);
    }
  }

  /**
   * Below a root whose children are a `resources` element holding objects
   * with no objects inside them, and a subtree without objects, the search
   * for objects finds exactly the resources' children.
   */
  lemma FindInModel(resources: Element, build: Element, tag: Name)
    requires resources.tag != tag
    requires forall i :: 0 <= i < |resources.children| ==>
      resources.children[i].tag == tag && NoneTagged(resources.children[i].children, tag)
    requires NoneTagged([build], tag)
    ensures Filter(Preorder([resources, build]), Tagged(tag)) == resources.children
  {
    var p := Tagged(tag);
    FindInTaggedForest(resources.children, tag);
    FindInNoneTagged([build], tag);
    assert [resources, build][1..] == [build];
    assert Preorder([resources, build]) == [resources] + Preorder(resources.children) + Preorder([build]);
    FilterAppend([resources] + Preorder(resources.children), Preorder([build]), p);
    FilterAppend([resources], Preorder(resources.children), p);
    FilterNone([resources], p);
  }

  /** Every exported object is an `object` with no `object` inside it. */
  lemma WrittenObjectsTagged<C>(objs: seq<SceneObject<C>>, fmt: C -> string)
    ensures forall i :: 0 <= i < |WrittenObjects(objs, fmt)| ==>
      WrittenObjects(objs, fmt)[i].tag == Core("object") && NoneTagged(WrittenObjects(objs, fmt)[i].children, Core("object"))
  {
    forall i | 0 <= i < |objs|
      ensures WrittenObject(i, objs[i], fmt).tag == Core("object")
      ensures NoneTagged(WrittenObject(i, objs[i], fmt).children, Core("object"))
    {
      WrittenObjectShape(i, objs[i], fmt);
      NoObjectInsideWrittenObject(i, objs[i], fmt);
    }
  }

  /** The importer finds the exported objects, and only them, in selection order. */
  lemma ObjectsOfWrittenModel<C>(objs: seq<SceneObject<C>>, fmt: C -> string)
    ensures Objects(InNamespace(ModelDocument(objs, fmt), ModelNamespace)) == WrittenObjects(objs, fmt)
  {
    var root := InNamespace(ModelDocument(objs, fmt), ModelNamespace);
    WrittenModelShape(objs, fmt);
    WrittenObjectsTagged(objs, fmt);
    var resources, build := root.children[0], root.children[1];
    assert root.children == [resources, build];
    FindInModel(resources, build, Core("object"));
  }

  /**
   * The importer's walk over the written model finishes and creates, for
   * the i-th exported object, the mesh that object was written from.
   */
  lemma WalkOfWrittenModel<C(!new), F>(objs: seq<SceneObject<C>>, fmt: C -> string, parse: string -> Option<F>)
    requires forall c :: parse(fmt(c)).Some?
    ensures Walk(Objects(InNamespace(ModelDocument(objs, fmt), ModelNamespace)), parse) ==
      Walked(seq(|objs|, i requires 0 <= i < |objs| => ExpectedMesh(i, objs[i], fmt, parse)), false)
  {
    var meshes := seq(|objs|, i requires 0 <= i < |objs| => ExpectedMesh(i, objs[i], fmt, parse));
    ObjectsOfWrittenModel(objs, fmt);
    var written := WrittenObjects(objs, fmt);
    var rs := ObjectResults(written, parse);
    forall i | 0 <= i < |objs|
      ensures rs[i] == Created(meshes[i])
    {
      ResultAt(written, parse, i);
      WrittenObjectImports(i, objs[i], fmt, parse);
    }
    CollectAllCreated(rs, meshes);
  }

  /** Results that all create a mesh collect to those meshes, in order. */
  lemma {:induction false} CollectAllCreated<F>(rs: seq<ObjectResult<F>>, meshes: seq<ImportedMesh<F>>)
    requires |meshes| == |rs|
    requires forall i :: 0 <= i < |rs| ==> rs[i] == Created(meshes[i])
    ensures Collect(rs) == Walked(meshes, false)
  {
    if rs != [] {
      var n := |rs| - 1;
      CollectAllCreated(rs[..n], meshes[..n]);
      assert meshes[..n] + [meshes[n]] == meshes;
    }
  }

  /**
   * Export followed by import: when at least one mesh object is selected and
   * writing succeeds, export finishes, and importing the written file
   * finishes and creates, for the i-th exported object, the mesh
   * `Imported_3MF_<i>` with the positions `float` reads back from the
   * written text and the triangles' index triples in polygon order.
   */
  lemma ExportThenImport<C(!new), F>(files: map<string, FileData>, path: string, selected: seq<SceneObject<C>>,
                               fmt: C -> string, parse: string -> Option<F>)
    requires MeshObjects(selected) != []
    requires forall c :: parse(fmt(c)).Some?
    ensures ExportResult(files, path, selected, fmt, NoFault).0 == Finished
    ensures var objs := MeshObjects(selected);
      ImportResult(ExportResult(files, path, selected, fmt, NoFault).1, path, parse) ==
        (Finished, seq(|objs|, i requires 0 <= i < |objs| => ExpectedMesh(i, objs[i], fmt, parse)))
  {
    var objs := MeshObjects(selected);
    var root := InNamespace(ModelDocument(objs, fmt), ModelNamespace);
    var parts := PackageParts(objs, fmt);
    PackageEntries(objs, fmt);
    assert parts[..3] == parts;
    var after := ExportResult(files, path, selected, fmt, NoFault).1;
    assert after == files[path := Zip(Entries(parts))];
    assert after[path].entries[ModelPath] == Xml(root);
    WalkOfWrittenModel(objs, fmt, parse);
  }

  /**
   * What the round trip preserves, object by object: the object count, each
   * mesh's vertex count, and, for a triangulated mesh, every polygon's index
   * triple in polygon order (so the winding too).
   */
  lemma RoundTripKeepsTopology<C(!new), F>(files: map<string, FileData>, path: string, selected: seq<SceneObject<C>>,
                                     fmt: C -> string, parse: string -> Option<F>)
    requires MeshObjects(selected) != []
    requires forall c :: parse(fmt(c)).Some?
    ensures var objs := MeshObjects(selected);
      var (outcome, meshes) := ImportResult(ExportResult(files, path, selected, fmt, NoFault).1, path, parse);
      && outcome == Finished
      && |meshes| == |objs|
      && (forall i :: 0 <= i < |objs| ==> |meshes[i].vertices| == |objs[i].evaluated.vertices|)
      && (forall i :: 0 <= i < |objs| && (forall j :: 0 <= j < |objs[i].evaluated.polygons| ==> |objs[i].evaluated.polygons[j]| == 3) ==>
            |meshes[i].faces| == |objs[i].evaluated.polygons| &&
            forall j :: 0 <= j < |meshes[i].faces| ==>
              var p := objs[i].evaluated.polygons[j]; meshes[i].faces[j] == (p[0] as int, p[1] as int, p[2] as int))
  {
    ExportThenImport(files, path, selected, fmt, parse);
    var objs := MeshObjects(selected);
    forall i | 0 <= i < |objs| && (forall j :: 0 <= j < |objs[i].evaluated.polygons| ==> |objs[i].evaluated.polygons[j]| == 3)
      ensures Triangles(objs[i].evaluated.polygons) == objs[i].evaluated.polygons
    {
      FilterAll(objs[i].evaluated.polygons, IsTriangle);
    }
  }
}
