/**
 * XML documents as ElementTree holds them: a tree of elements, each with a
 * qualified tag, an attribute map and an ordered list of children. Text
 * content plays no part in a 3MF model and is not represented.
 */
module Xml {
  import opened Options
  import opened Sequences

  /** A qualified tag: namespace URI (`""` for none) and local name. */
  datatype Name = Name(ns: string, local: string)

  datatype Element = Element(tag: Name, attrs: map<string, string>, children: seq<Element>)

  /** Whether an element carries the given tag, as a predicate to select with. */
  function Tagged(tag: Name): Element -> bool {
    (e: Element) => e.tag == tag
  }

  /** `e.attrib.get(key, default)`. */
  function AttrOr(e: Element, key: string, default: string): string {
    if key in e.attrs then e.attrs[key] else default
  }

  /**
   * The elements of `forest` and all their descendants in document order:
   * each element before its children, siblings left to right.
   */
  function Preorder(forest: seq<Element>): seq<Element>
    decreases forest
  {
    if forest == [] then []
    else [forest[0]] + Preorder(forest[0].children) + Preorder(forest[1..])
  }

  /** `root.findall(".//" + tag)`: every descendant of `root` (not `root` itself) with that tag, in document order. */
  function FindDescendants(root: Element, tag: Name): seq<Element> {
    Filter(Preorder(root.children), Tagged(tag))
  }

  /** `e.find(tag)`: the first child of `e` with that tag. */
  function FindChild(e: Element, tag: Name): (r: Option<Element>)
    ensures r.None? <==> forall i :: 0 <= i < |e.children| ==> e.children[i].tag != tag
    ensures r.Some? ==> r.value.tag == tag && exists i :: (0 <= i < |e.children| && e.children[i] == r.value &&
      forall j :: 0 <= j < i ==> e.children[j].tag != tag)
  {
    FirstTagged(e.children, tag)
  }

  function FirstTagged(cs: seq<Element>, tag: Name): (r: Option<Element>)
    ensures r.None? <==> forall i :: 0 <= i < |cs| ==> cs[i].tag != tag
    ensures r.Some? ==> r.value.tag == tag && exists i :: (0 <= i < |cs| && cs[i] == r.value &&
      forall j :: 0 <= j < i ==> cs[j].tag != tag)
  {
    if cs == [] then None
    else if cs[0].tag == tag then Some(cs[0])
    else
      var r := FirstTagged(cs[1..], tag);
      assert r.Some? ==> exists i :: (1 <= i < |cs| && cs[i] == r.value &&
        forall j :: 0 <= j < i ==> cs[j].tag != tag) by {
        if r.Some? {
          var i :| 0 <= i < |cs[1..]| && cs[1..][i] == r.value && forall j :: 0 <= j < i ==> cs[1..][j].tag != tag;
          assert cs[i + 1] == r.value && forall j :: 0 <= j < i + 1 ==> cs[j].tag != tag;
        }
      }
      r
  }

  /** The children with tag `tag` of every element of `parents`, parent by parent. */
  function ChildrenOfAll(parents: seq<Element>, tag: Name): seq<Element> {
    if parents == [] then []
    else ChildrenOfAll(parents[..|parents| - 1], tag) + Filter(parents[|parents| - 1].children, Tagged(tag))
  }

  /** `e.findall(outer + "/" + inner)`: the `inner` children of the `outer` children of `e`. */
  function FindPath(e: Element, outer: Name, inner: Name): seq<Element> {
    ChildrenOfAll(Filter(e.children, Tagged(outer)), inner)
  }

  /**
   * The tree ElementTree's parser returns for the text its serializer writes
   * for `e` when `ns` is registered as the default namespace (prefix `""`)
   * and `e`'s own tag is in `ns`: the root then carries `xmlns="ns"`, a tag
   * in `ns` is written without prefix, and so is a tag without any
   * namespace, which the parser therefore reads back in `ns`.
   */
  function InNamespace(e: Element, ns: string): (r: Element)
    ensures r.tag == (if e.tag.ns == "" then Name(ns, e.tag.local) else e.tag)
    ensures r.attrs == e.attrs
    ensures |r.children| == |e.children|
    ensures forall i :: 0 <= i < |e.children| ==> r.children[i] == InNamespace(e.children[i], ns)
  {
    Element(
      if e.tag.ns == "" then Name(ns, e.tag.local) else e.tag,
      e.attrs,
      seq(|e.children|, i requires 0 <= i < |e.children| => InNamespace(e.children[i], ns)))
  }

  /**
   * Reading back keeps the number of elements, and with a non-empty default
   * namespace no element of the tree read back is without a namespace.
   */
  lemma InNamespaceQualifiesEveryTag(e: Element, ns: string)
    ensures |Preorder([InNamespace(e, ns)])| == |Preorder([e])|
    ensures ns != "" ==> forall x :: x in Preorder([InNamespace(e, ns)]) ==> x.tag.ns != ""
  {
    InNamespaceForest([e], [InNamespace(e, ns)], ns);
  }

  /** The forest form of `InNamespaceQualifiesEveryTag`: `g` is the forest `f` read back. */
  lemma {:induction false} InNamespaceForest(f: seq<Element>, g: seq<Element>, ns: string)
    requires |g| == |f| && forall i :: 0 <= i < |f| ==> g[i] == InNamespace(f[i], ns)
    ensures |Preorder(g)| == |Preorder(f)|
    ensures ns != "" ==> forall x :: x in Preorder(g) ==> x.tag.ns != ""
    decreases f
  {
    if f != [] {
      InNamespaceForest(f[0].children, g[0].children, ns);
      assert forall i :: 0 <= i < |f[1..]| ==> f[1..][i] == f[i + 1] && g[1..][i] == g[i + 1];
      InNamespaceForest(f[1..], g[1..], ns);
    }
  }

  /** No element of `forest`, and none of their descendants, carries `tag`. */
  predicate NoneTagged(forest: seq<Element>, tag: Name)
    decreases forest
  {
    forall i :: 0 <= i < |forest| ==> forest[i].tag != tag && NoneTagged(forest[i].children, tag)
  }

  /** A search for `tag` below a forest that holds none finds nothing. */
  lemma {:induction false} FindInNoneTagged(forest: seq<Element>, tag: Name)
    requires NoneTagged(forest, tag)
    ensures Filter(Preorder(forest), Tagged(tag)) == []
    decreases forest
  {
    if forest != [] {
      var head, rest := forest[0], forest[1..];
      FindInNoneTagged(head.children, tag);
      assert forall i :: 0 <= i < |rest| ==> rest[i] == forest[i + 1];
      FindInNoneTagged(rest, tag);
      FilterAppend([head] + Preorder(head.children), Preorder(rest), Tagged(tag));
      FilterAppend([head], Preorder(head.children), Tagged(tag));
      FilterNone([head], Tagged(tag));
    }
  }

  /**
   * A search for `tag` below a forest whose members all carry `tag`, with
   * none below them, finds exactly the forest, in order.
   */
  lemma {:induction false} FindInTaggedForest(forest: seq<Element>, tag: Name)
    requires forall i :: 0 <= i < |forest| ==> forest[i].tag == tag && NoneTagged(forest[i].children, tag)
    ensures Filter(Preorder(forest), Tagged(tag)) == forest
    decreases |forest|
  {
    if forest != [] {
      var head, rest := forest[0], forest[1..];
      var tree := [head] + Preorder(head.children);
      assert Preorder(forest) == tree + Preorder(rest);
      FindInTaggedTree(head, tag);
      forall i | 0 <= i < |rest|
        ensures rest[i].tag == tag && NoneTagged(rest[i].children, tag)
      {
        assert rest[i] == forest[i + 1];
      }
      FindInTaggedForest(rest, tag);
      FilterAppend(tree, Preorder(rest), Tagged(tag));
      assert [head] + rest == forest;
    }
  }

  /** A search for `tag` through an element with that tag, and none below it, finds just that element. */
  lemma FindInTaggedTree(head: Element, tag: Name)
    requires head.tag == tag && NoneTagged(head.children, tag)
    ensures Filter([head] + Preorder(head.children), Tagged(tag)) == [head]
  {
    var p := Tagged(tag);
    FindInNoneTagged(head.children, tag);
    FilterAppend([head], Preorder(head.children), p);
    assert Filter([head], p) == [head] by {
      assert [head][..0] == [];
    }
  }

}
