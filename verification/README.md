# Panda 3MF add-on: a verified model of its exporter and importer

The add-on gives Blender two operators. The exporter (`Export3MF.execute`)
writes the selected mesh objects into a 3MF package. The importer
(`Import3MF.execute`) reads such a package back into scene objects. A 3MF
package is a ZIP archive. Its model entry `3D/3dmodel.model` is an XML
document in the 3MF core namespace
`http://schemas.microsoft.com/3dmanufacturing/core/2015/02`. The archive also
holds two fixed Open Packaging Conventions parts: `[Content_Types].xml` and
`_rels/.rels`.

This project models both operators in Dafny and proves what they do.

**Export.** The model covers these steps of the exporter:
- it keeps only the selected objects of type `MESH`, and cancels when there are none;
- it numbers the objects `1..n` in selection order;
- it writes one `object` resource per mesh object (`pid="1"`, `type="model"`, its name), holding a `mesh` with its `vertices` and `triangles`;
- vertices are written in mesh order;
- a `triangle` is written only for 3-vertex polygons, with its indices as `str` writes them;
- one build `item` refers to each object by the same id;
- the archive gets its three entries in order;
- any exception while writing cancels the export, including one raised when the archive is closed.

**Import.** The model covers these steps of the importer:
- it cancels for a file that is not a ZIP archive, and for an archive without the model entry;
- it walks every `object` element below the root, in document order;
- it skips objects without a `mesh`, but their positions still count for the `Imported_3MF_<idx>` names;
- it reads vertices with missing coordinates as `"0"`, and triangle indices with missing attributes as `0`;
- it does not check indices against the vertex count;
- it links one scene object per mesh;
- a number that does not parse raises out of the loop, and the objects already linked stay in the scene.

**Namespaces.** The exporter registers the core namespace as the default
namespace. It then writes the root in that namespace and its descendants
without one. ElementTree therefore writes `xmlns="…"` on the root and bare
child names, and its parser reads every child back in the core namespace.
`Xml.InNamespace` models this, and `Xml.InNamespaceQualifiesEveryTag` proves
that no tag stays without a namespace. It is why the importer's `m:object` lookups
find what the exporter wrote.

**Round trip.** `RoundTrip.ExportThenImport` proves that, when writing
succeeds, importing the written file gives one mesh per exported object, in
selection order. The mesh is named after the object's position. Its positions
are what `float` reads from the written text. Its faces are the index triples
of the object's triangles, in polygon order.

**Modules.** The modules follow the program:
- `Package`: the archive, the file system and the operator outcomes;
- `Xml`: the ElementTree operations the code uses;
- `Numerals`: `str` and `int` on integers;
- `Exporter`, `ExportProperties`, `Importer`, `ImportProperties`: the two operators and their properties;
- `RoundTrip`: export followed by import;
- `Sequences` and `Options`: generic helpers.

**Classes and parameters.**
- The file system is a class. `Exporter.Execute` updates it.
- The Blender scene is a class. `Importer.Execute` links objects into it.
- Coordinates have a type parameter. The exporter's `format(c, '.6f')` is a parameter `fmt`. The importer's `float` is a parameter `parse`, whose `None` stands for the `ValueError` it raises.
- A write failure is an input (`WriteFault`): opening the file fails, the `writestr` of entry `k` fails, or closing the archive fails. After a failure past the open, what the file holds is part of the input (`leftover`).
- The model follows Python 3.8 or later. `ET.tostring(..., xml_declaration=True)` at export_panda3mf.py:70 needs 3.8; on Python 3.7, which Blender 2.80 ships, that call raises `TypeError` outside the `try`, and the export fails before writing anything.

**What the code does not do:**
- No material or property group is written. Every object still carries `pid="1"`, and the only resource with id 1 is the first object itself.
- A failed write is not made atomic. The archive is written straight to the chosen path, so an exception after the open leaves whatever `ZipFile` had put there.
- Malformed XML in the model entry is not reported as a cancellation. `fromstring` raises `ParseError` out of `execute` (outcome `Raised(MalformedXml)`).

## Model

| member | source | states |
|---|---|---|
| Numerals.NatToString | export_panda3mf.py:40 | `str(n)` for a natural number is a non-empty string of decimal digits with no leading zero; it is one digit exactly when `n < 10` |
| Numerals.ParseIntOfDigits | import_panda3mf.py:42-44 | `int(text)` on a text of plain digits is the number those digits denote |
| Numerals.DigitGroupsOfDigits | import_panda3mf.py:42-44 | plain digits are a valid `int` literal body, read as the number they denote |
| Numerals.ParseIntOfNatToString | import_panda3mf.py:42-44 | `int(str(n)) == n` for every natural number, so indices and ids survive the round trip through text |
| Numerals.NatToStringInjective | export_panda3mf.py:40 | distinct numbers have distinct `str` texts |
| Numerals.ParseSignedOfSign | import_panda3mf.py:42-44 | `int` reads one leading `-` as negation and one leading `+` as nothing |
| Numerals.NegativeDigitsRead | import_panda3mf.py:42-44 | a `-` followed by plain digits reads as the negated value of the digits |
| Numerals.PositiveDigitsRead | import_panda3mf.py:42-44 | a `+` followed by plain digits reads as the value of the digits |
| Numerals.ParseIntOfNegative | import_panda3mf.py:42-44 | `int("-" + str(n)) == -n` |
| Numerals.ParseIntOfPositive | import_panda3mf.py:42-44 | `int("+" + str(n)) == n` |
| Numerals.ParseIntIgnoresSurroundingSpace | import_panda3mf.py:42-44 | `int(a + str(n) + b) == n` for any texts `a` and `b` made of ASCII whitespace (blank, tab, line feed, vertical tab, form feed, carriage return) |
| Numerals.TrimStartSkipsBlanks | import_panda3mf.py:42-44 | whitespace before a text never changes what is left once `int` strips the leading whitespace |
| Numerals.TrimEndSkipsBlanks | import_panda3mf.py:42-44 | whitespace after a text never changes what is left once `int` strips the trailing whitespace |
| Numerals.ParseIntRejectsNoDigits | import_panda3mf.py:42-44 | a text made only of blanks and signs (the empty text included) makes `int` raise |
| Xml.FindChild | import_panda3mf.py:29-31 | `find("m:mesh")` is `None` exactly when no child has the tag, and otherwise returns the first child that has it |
| Xml.InNamespaceQualifiesEveryTag | export_panda3mf.py:21-26 | reading back a tree written with a default namespace registered keeps its number of elements, and with a non-empty namespace no element read back is without a namespace |
| Xml.FindInNoneTagged | import_panda3mf.py:28 | `findall(".//tag")` finds nothing below a forest that holds no element with that tag |
| Xml.FindInTaggedForest | import_panda3mf.py:28 | below a forest of `tag` elements with none below them, `findall(".//tag")` finds exactly the forest, in order |
| Package.FilesAfterWrite | export_panda3mf.py:82-89 | a failed open changes no file; when nothing raises, the path holds a ZIP of all the parts; after a failed `writestr` or close it holds what was left there; no other file ever changes |
| Package.WriteArchive | export_panda3mf.py:82-89 | succeeds exactly when no open, `writestr` or close raises; if the open fails, no file changes; on success the path holds a ZIP of all the parts; after any other failure it holds what was left there |
| Exporter.PackageEntries | export_panda3mf.py:83-86 | the three `writestr` calls leave an archive holding exactly the model, content-types and relationships entries, each with its own payload |
| Exporter.MeshObjects | export_panda3mf.py:16 | every kept object is a selected object of type MESH, and every selected MESH object is kept |
| Exporter.SomeMeshSelected | export_panda3mf.py:16-17 | there is something to export exactly when some selected object has type MESH |
| Exporter.ExportResult | export_panda3mf.py:15-92 | the export ends FINISHED or cancelled for no mesh or a write failure; it finishes exactly when a MESH is selected and no write raises; no file other than the target changes |
| Exporter.Triangles | export_panda3mf.py:57-58 | every polygon that becomes a `triangle` has exactly three vertices |
| Exporter.WriteVertices | export_panda3mf.py:50-55 | one `vertex` element per mesh vertex, in mesh order, with exactly the attributes `x`, `y`, `z` formatted from its coordinates |
| Exporter.WriteTriangles | export_panda3mf.py:57-64 | one `triangle` element per 3-vertex polygon, in polygon order, with `v1`, `v2`, `v3` the `str` of its indices |
| Exporter.BuildModel | export_panda3mf.py:24-66 | the loop builds the model document: root `model` in the core namespace with `unit="millimeter"`, and children `resources` and `build` holding one object and one item per mesh object, ids from 1 |
| Exporter.Execute | export_panda3mf.py:15-92 | cancels with no file change when no MESH is selected; finishes exactly when a MESH is selected and the open, the three `writestr` calls and the close all succeed; on success the file is a ZIP with exactly the model, content-types and relationships entries; any write failure cancels |
| ExportProperties.NoMeshSelectedCancels | export_panda3mf.py:16-19 | with no MESH among the selected objects the export is cancelled and leaves every file unchanged |
| ExportProperties.WriteFailureCancels | export_panda3mf.py:82-89 | a write exception cancels the export; if the open failed, every file is unchanged; if a `writestr` or the close failed, the path holds what was left there and every other file is unchanged |
| ExportProperties.ResourceIds | export_panda3mf.py:28-66 | object ids are `str(1)..str(n)` in selection order and pairwise distinct; each object has `pid="1"`, `type="model"` and its object's name; each build item's only attribute `objectid` equals its object's id |
| ExportProperties.IdsReadBack | export_panda3mf.py:39-66 | `int` of the i-th object's `id` and of the i-th build item's `objectid` both give i + 1 |
| ExportProperties.TriangleSelection | export_panda3mf.py:57-64 | the triangle elements correspond one to one, in order, to the 3-vertex polygons; every 3-vertex polygon is written, and each with its indices in its own order (winding kept) |
| ExportProperties.TriangulatedMeshKeepsEveryPolygon | export_panda3mf.py:33-37 | after triangulation every polygon is written as a triangle |
| Importer.Scene.Link | import_panda3mf.py:51-52 | linking appends the new object to the scene's objects |
| Importer.MeshNamesDistinct | import_panda3mf.py:47-51 | objects at distinct positions get distinct `Imported_3MF_<idx>` names |
| Importer.ReadVertexDefaults | import_panda3mf.py:33-38 | a vertex without coordinates reads as three times `float("0")`; a coordinate `float` rejects makes the vertex fail |
| Importer.ReadIndexOfWritten | import_panda3mf.py:42-44 | an index attribute holding `str(n)` reads back as `n`, whatever the other attributes hold |
| Importer.ReadFaceDefaults | import_panda3mf.py:40-45 | a triangle without indices is the face (0, 0, 0); an index `int` rejects makes the triangle fail |
| Importer.ReadVertices | import_panda3mf.py:33-38 | the vertex list fails exactly when some vertex fails to parse; otherwise it has one position per `vertex` element, in document order |
| Importer.ReadFaces | import_panda3mf.py:40-45 | the face list fails exactly when some triangle fails to parse; otherwise it has one index triple per `triangle` element, in document order |
| Importer.ReadVertexList | import_panda3mf.py:33-38 | the vertex loop succeeds exactly when `ReadVertices` does, and then returns its positions |
| Importer.ReadFaceList | import_panda3mf.py:40-45 | the triangle loop succeeds exactly when `ReadFaces` does, and then returns its triples |
| Importer.ReadObject | import_panda3mf.py:29-47 | one iteration of the object loop yields the walk's result for the object at position `idx`: skipped without a mesh, failed on a bad number, or the mesh named after `idx` |
| Importer.ImportResult | import_panda3mf.py:13-56 | the import ends in one of five ways; it finishes only for a ZIP archive whose model entry parses; when it cancels or the XML is malformed it links nothing |
| Importer.CollectStaysFailed | import_panda3mf.py:28-53 | once an exception has left the object loop, later objects change nothing |
| Importer.ResultAt | import_panda3mf.py:28 | the walk's result at position `i` is what the `i`-th object found yields, with `enumerate`'s index `i` |
| Importer.LinkObjects | import_panda3mf.py:28-53 | the loop links exactly the meshes the walk creates, in order; it reports an exception exactly when the walk fails, and keeps the objects linked before the failure |
| Importer.Execute | import_panda3mf.py:13-56 | cancels without touching the scene for a non-ZIP file or a missing model entry; raises for malformed XML; otherwise adds exactly the walk's meshes to the scene and finishes unless a number failed to parse |
| ImportProperties.ImportObjectCases | import_panda3mf.py:29-47 | an object is skipped exactly when it has no `mesh` child; a created mesh is named after the object's position |
| ImportProperties.CollectCreates | import_panda3mf.py:28-53 | a walk that raised nothing met no failing object, and its meshes are those of the created results, in order |
| ImportProperties.OneMeshPerMeshObject | import_panda3mf.py:28-53 | a walk that raises nothing creates one mesh per object with a `mesh` child, in document order, each named after its position among all objects |
| ImportProperties.OutOfRangeIndexPassesThrough | import_panda3mf.py:40-48 | a triangle naming vertex 7 of a mesh with no vertices, its other indices missing, becomes the face (7, 0, 0) |
| RoundTrip.WrittenObjectShape | export_panda3mf.py:39-48 | an exported object reads back as an `object` in the core namespace with one `mesh` child, holding `vertices` and `triangles` |
| RoundTrip.WrittenMeshPaths | import_panda3mf.py:34-41 | the importer's `vertices/vertex` and `triangles/triangle` paths reach exactly the exported vertices and triangles |
| RoundTrip.WrittenVerticesRead | import_panda3mf.py:33-38 | reading the exported vertices gives `float` of each formatted coordinate, in mesh order |
| RoundTrip.WrittenTriangleRead | import_panda3mf.py:42-45 | an exported `triangle` reads back as the index triple of its polygon |
| RoundTrip.WrittenFacesRead | import_panda3mf.py:40-45 | reading the exported triangles gives the triangles' index triples in polygon order |
| RoundTrip.WrittenObjectImports | import_panda3mf.py:29-48 | importing an exported object creates the mesh it was written from |
| RoundTrip.NoObjectInsideWrittenObject | export_panda3mf.py:39-64 | no `object` element lies inside an exported object |
| RoundTrip.WrittenModelShape | export_panda3mf.py:24-26 | the written model reads back as `resources` holding the exported objects in order, and `build` holding leaf `item`s |
| RoundTrip.ObjectsOfWrittenModel | import_panda3mf.py:28 | the importer's `.//m:object` search finds the exported objects, and only them, in selection order |
| RoundTrip.WalkOfWrittenModel | import_panda3mf.py:28-53 | the importer's walk over the written model raises nothing and creates, for the i-th exported object, the mesh it was written from |
| RoundTrip.ExportThenImport | export_panda3mf.py:82-92 | a successful export followed by an import finishes, giving, for the i-th exported object, the mesh `Imported_3MF_<i>` with its read-back positions and its triangles' triples |
| RoundTrip.RoundTripKeepsTopology | import_panda3mf.py:28-53 | the round trip keeps the object count and each vertex count; for a triangulated mesh every polygon comes back as its index triple in polygon order |

## Left out

- Blender itself is outside the model: the context, the depsgraph, `evaluated_get`, `to_mesh`, `to_mesh_clear`, `mesh.update`, `obj.select_set` and `self.report`. The mesh after `bmesh.ops.triangulate` is an input (`SceneObject.evaluated`); triangulation itself is not modelled.
- How Blender's `from_pydata` treats a face index outside the vertex list is not part of this model; the importer passes such indices on unchanged.
- Blender renames an object whose name is already taken (`.001` suffixes). The model keeps the `Imported_3MF_<idx>` names as the code requests them.
- The text of `format(c, '.6f')` and the parsing of `float` are the parameters `fmt` and `parse`. Floating-point values and their rounding are not modelled.
- `int` is modelled for ASCII text: surrounding ASCII whitespace, one sign, and digits grouped by single underscores. Unicode whitespace and non-ASCII decimal digits, which Python's `int` also accepts, are left out.
- ZIP internals are left out: deflate compression, `is_zipfile` signature detection, and errors while reading an entry (`BadZipFile`, CRC errors). A file is either a ZIP mapping entry names to contents or not a ZIP at all.
- The bytes ElementTree writes (XML declaration, UTF-8 encoding, `xmlns` placement) are left out. Parsing is modelled by the tree it returns, or `Malformed` for text it rejects. Text content of elements plays no part in the code and is not represented.
- Package.WriteArchive: what the file at the path holds after a failed `writestr` or close is an input (`leftover`). What `ZipFile` actually leaves is not derived: a partly written entry, or a central directory written to a failing stream.
- Xml.InNamespace: attribute values are read back unchanged. ElementTree writes characters that XML 1.0 forbids (U+0001 to U+0008, U+000B, U+000C, U+000E to U+001F, U+FFFE, U+FFFF) into attribute values as they are, and its parser then rejects the model entry. The model does not capture that.
- RoundTrip.ExportThenImport: holds for object names made only of characters XML 1.0 allows. For a name with any other character, the real import raises `ParseError` (see `Xml.InNamespace`).
- Numerals.ParseInt: the limit of 4300 decimal digits is not modelled. Python 3.11 and 3.10.7 put that limit on `int` of a text and on `str` of an integer. Resource ids and vertex indices stay far below it.
- Materials and colours are not modelled, because neither operator's code reads or writes them.
- `__init__.py` (add-on registration and menu entries) is not part of this model.
