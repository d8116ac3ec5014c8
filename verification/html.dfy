/** An abstract parsed HTML document: the part of a parser's element tree
    that the listing extractor inspects, with BeautifulSoup's `find` and
    `find_all` searches over it. Text nodes are not modelled because the
    extractor never reads text. */
module Html {
  import opened Wrappers

  /** One tag: its name, its CSS classes (a multi-valued attribute), its
      other attributes, and its child tags in document order. */
  datatype Element = Element(
    name: string,
    classes: set<string>,
    attrs: map<string, string>,
    children: seq<Element>)

  /** The two kinds of search the extractor issues:
      `find(tag, class_=c)` and `find(tag, attr=True)`. */
  datatype Query =
    | WithClass(tag: string, cls: string)
    | WithAttr(tag: string, attr: string)

  predicate Matches(q: Query, e: Element) {
    match q
    case WithClass(tag, cls) => e.name == tag && cls in e.classes
    case WithAttr(tag, attr) => e.name == tag && attr in e.attrs
  }

  /** Every tag strictly below `e`, in document (pre-)order. */
  function Descendants(e: Element): seq<Element>
    decreases e
  {
    DescendantsOfAll(e.children)
  }

  /** The given sibling tags and everything below them, in document order. */
  function DescendantsOfAll(cs: seq<Element>): seq<Element>
    decreases cs
  {
    if cs == [] then [] else [cs[0]] + Descendants(cs[0]) + DescendantsOfAll(cs[1..])
  }

  /** Being below is transitive. */
  lemma {:induction false} DescendantOfDescendant(e: Element, d: Element, x: Element)
    requires d in Descendants(e)
    requires x in Descendants(d)
    ensures x in Descendants(e)
    decreases e
  {
    DescendantOfDescendantAll(e.children, d, x);
  }

  lemma {:induction false} DescendantOfDescendantAll(cs: seq<Element>, d: Element, x: Element)
    requires d in DescendantsOfAll(cs)
    requires x in Descendants(d)
    ensures x in DescendantsOfAll(cs)
    decreases cs
  {
    assert DescendantsOfAll(cs) == [cs[0]] + Descendants(cs[0]) + DescendantsOfAll(cs[1..]);
    if d == cs[0] {
    } else if d in Descendants(cs[0]) {
      DescendantOfDescendant(cs[0], d, x);
    } else {
      DescendantOfDescendantAll(cs[1..], d, x);
    }
  }

  /** The elements of `s` that match `q`, in their order in `s`. */
  function Filter(s: seq<Element>, q: Query): (r: seq<Element>)
    ensures |r| <= |s|
    ensures forall x :: x in r <==> x in s && Matches(q, x)
    ensures forall i :: 0 <= i < |r| ==> Matches(q, r[i])
  {
    if s == [] then []
    else (if Matches(q, s[0]) then [s[0]] else []) + Filter(s[1..], q)
  }

  lemma {:induction false} FilterAppend(a: seq<Element>, b: seq<Element>, q: Query)
    ensures Filter(a + b, q) == Filter(a, q) + Filter(b, q)
  {
    if a == [] {
      assert a + b == b;
    } else {
      assert (a + b)[1..] == a[1..] + b;
      FilterAppend(a[1..], b, q);
    }
  }

  /** The first element of `s` that matches `q`, if any. */
  function FirstMatch(s: seq<Element>, q: Query): (r: Option<Element>)
    ensures r.Some? <==> exists i :: 0 <= i < |s| && Matches(q, s[i])
    ensures r.Some? ==> exists i :: 0 <= i < |s| && s[i] == r.value && Matches(q, s[i]) &&
                          forall j :: 0 <= j < i ==> !Matches(q, s[j])
  {
    if s == [] then None
    else if Matches(q, s[0]) then Some(s[0])
    else
      var r := FirstMatch(s[1..], q);
      assert forall i :: 1 <= i < |s| ==> s[i] == s[1..][i - 1];
      r
  }

  /** `e.find(...)`: the first matching tag below `e`, or nothing. */
  function Find(e: Element, q: Query): Option<Element> {
    FirstMatch(Descendants(e), q)
  }

  /** `e.find_all(...)`: every matching tag below `e`, in document order. */
  function FindAll(e: Element, q: Query): seq<Element> {
    Filter(Descendants(e), q)
  }

  /** What `Find` returns below `subject` also lies below `article` when
      `subject` itself does. */
  lemma FindBelow(article: Element, subject: Element, q: Query)
    requires subject in Descendants(article)
    ensures Find(subject, q).Some? ==> Find(subject, q).value in Descendants(article)
  {
    if Find(subject, q).Some? {
      DescendantOfDescendant(article, subject, Find(subject, q).value);
    }
  }

  /** `find` is the head of `find_all`: it finds something exactly when
      `find_all` is non-empty, and then it is `find_all`'s first element. */
  lemma {:induction false} FindIsFirstOfFindAll(e: Element, q: Query)
    ensures Find(e, q).Some? <==> |FindAll(e, q)| > 0
    ensures Find(e, q).Some? ==> Find(e, q).value == FindAll(e, q)[0]
  {
    FirstMatchIsFilterHead(Descendants(e), q);
  }

  lemma {:induction false} FirstMatchIsFilterHead(s: seq<Element>, q: Query)
    ensures FirstMatch(s, q).Some? <==> |Filter(s, q)| > 0
    ensures FirstMatch(s, q).Some? ==> FirstMatch(s, q).value == Filter(s, q)[0]
  {
    if s != [] {
      if Matches(q, s[0]) {
        assert Filter(s, q) == [s[0]] + Filter(s[1..], q);
      } else {
        FirstMatchIsFilterHead(s[1..], q);
        assert Filter(s, q) == Filter(s[1..], q);
        assert FirstMatch(s, q) == FirstMatch(s[1..], q);
      }
    }
  }

  /** A tag found by a document-wide search, together with its parent
      (`element.parent`); `None` stands for a tag with no parent. */
  datatype Located = Located(block: Element, parent: Option<Element>)

  /** `e.find_all(...)` with each hit paired with its parent, in document order. */
  function FindAllWithParent(e: Element, q: Query): seq<Located>
    decreases e
  {
    FindAllAmong(e, e.children, q)
  }

  /** The hits among the children `cs` of `p` and below them. */
  function FindAllAmong(p: Element, cs: seq<Element>, q: Query): seq<Located>
    decreases cs
  {
    if cs == [] then []
    else
      (if Matches(q, cs[0]) then [Located(cs[0], Some(p))] else [])
      + FindAllWithParent(cs[0], q)
      + FindAllAmong(p, cs[1..], q)
  }

  function Blocks(ls: seq<Located>): (r: seq<Element>)
    ensures |r| == |ls|
    ensures forall i :: 0 <= i < |ls| ==> r[i] == ls[i].block
  {
    if ls == [] then [] else [ls[0].block] + Blocks(ls[1..])
  }

  lemma BlocksAppend(a: seq<Located>, b: seq<Located>)
    ensures Blocks(a + b) == Blocks(a) + Blocks(b)
  {
  }

  /** The parent-tracking search finds the same tags, in the same order, as
      `find_all`, and pairs each with its real parent: a tag of the searched
      tree (`e` itself or a tag below it) that has the hit among its children. */
  lemma {:induction false} FindAllWithParentSound(e: Element, q: Query)
    ensures Blocks(FindAllWithParent(e, q)) == FindAll(e, q)
    ensures forall l :: l in FindAllWithParent(e, q) ==>
              && l.block in Descendants(e)
              && l.parent.Some? && l.block in l.parent.value.children
              && (l.parent.value == e || l.parent.value in Descendants(e))
    decreases e
  {
    FindAllAmongSound(e, e.children, q);
  }

  lemma {:induction false} FindAllAmongSound(p: Element, cs: seq<Element>, q: Query)
    requires forall c :: c in cs ==> c in p.children
    ensures Blocks(FindAllAmong(p, cs, q)) == Filter(DescendantsOfAll(cs), q)
    ensures forall l :: l in FindAllAmong(p, cs, q) ==>
              && l.block in DescendantsOfAll(cs)
              && l.parent.Some? && l.block in l.parent.value.children
              && (l.parent.value == p || l.parent.value in DescendantsOfAll(cs))
    decreases cs
  {
    if cs != [] {
      var head: seq<Located> := if Matches(q, cs[0]) then [Located(cs[0], Some(p))] else [];
      var mid := FindAllWithParent(cs[0], q);
      var tail := FindAllAmong(p, cs[1..], q);
      FindAllWithParentSound(cs[0], q);
      FindAllAmongSound(p, cs[1..], q);
      BlocksAppend(head, mid);
      BlocksAppend(head + mid, tail);
      FilterAppend([cs[0]], Descendants(cs[0]), q);
      FilterAppend([cs[0]] + Descendants(cs[0]), DescendantsOfAll(cs[1..]), q);
      assert FindAllAmong(p, cs, q) == head + mid + tail;
      assert DescendantsOfAll(cs) == [cs[0]] + Descendants(cs[0]) + DescendantsOfAll(cs[1..]);
    }
  }
}
