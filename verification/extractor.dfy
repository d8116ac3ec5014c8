/** The listing extractor: from a parsed listing page to the
    `(author name, article link)` pairs it advertises, in document order. */
module Extractor {
  import opened Wrappers
  import opened Html

  /** The base every relative article link is appended to. */
  const ServiceBaseUrl: string := "https://www.clien.net"

  /** `div.list_author`: one author block per listed article. */
  const ListAuthor: Query := WithClass("div", "list_author")
  /** `span[title]`: the span carrying the author's name in its `title` attribute. */
  const TitledSpan: Query := WithAttr("span", "title")
  /** `div.list_title`: the block holding the article's subject and link. */
  const ListTitle: Query := WithClass("div", "list_title")
  /** `a[href]`: the link to the article. */
  const HrefAnchor: Query := WithAttr("a", "href")

  /** One extracted listing entry. */
  datatype AuthorLink = AuthorLink(author: string, link: string)

  predicate IsServiceLink(link: string) {
    |ServiceBaseUrl| <= |link| && link[..|ServiceBaseUrl|] == ServiceBaseUrl
  }

  /** The entry one author block yields, or nothing when the block is
      malformed: no titled span below it, no parent, no `list_title` div
      below the parent, or no `a[href]` below that div. */
  function ExtractFromBlock(loc: Located): (r: Option<AuthorLink>)
    ensures r.Some? ==> IsServiceLink(r.value.link)
  {
    match Find(loc.block, TitledSpan)
    case None => None
    case Some(span) =>
      match loc.parent
      case None => None
      case Some(article) =>
        match Find(article, ListTitle)
        case None => None
        case Some(subject) =>
          match Find(subject, HrefAnchor)
          case None => None
          case Some(a) => Some(AuthorLink(span.attrs["title"], ServiceBaseUrl + a.attrs["href"]))
  }

  /** An extracted entry names a titled span below the block as its author
      and an anchor below the block's parent as its link; a block lacking a
      titled span, a parent, a `list_title` div or an `a[href]` yields nothing. */
  lemma ExtractFromBlockSound(loc: Located)
    ensures ExtractFromBlock(loc).Some? ==>
              exists span :: span in Descendants(loc.block) && Matches(TitledSpan, span) &&
                ExtractFromBlock(loc).value.author == span.attrs["title"]
    ensures ExtractFromBlock(loc).Some? ==>
              loc.parent.Some? &&
              exists a :: a in Descendants(loc.parent.value) && Matches(HrefAnchor, a) &&
                ExtractFromBlock(loc).value.link == ServiceBaseUrl + a.attrs["href"]
    ensures (forall x :: x in Descendants(loc.block) ==> !Matches(TitledSpan, x)) ==>
              ExtractFromBlock(loc).None?
    ensures loc.parent.None? ==> ExtractFromBlock(loc).None?
    ensures (loc.parent.Some? && forall x :: x in Descendants(loc.parent.value) ==> !Matches(ListTitle, x)) ==>
              ExtractFromBlock(loc).None?
    ensures (loc.parent.Some? && forall x :: x in Descendants(loc.parent.value) ==> !Matches(HrefAnchor, x)) ==>
              ExtractFromBlock(loc).None?
  {
    if ExtractFromBlock(loc).Some? {
      var article := loc.parent.value;
      var subject := Find(article, ListTitle).value;
      FindBelow(article, subject, HrefAnchor);
    }
  }

  /** The same entry, read through `find_all`: a block yields an entry exactly
      when each of the four searches finds something, and the entry is built
      from the first hit of each. */
  lemma ExtractFromBlockByFindAll(loc: Located)
    ensures ExtractFromBlock(loc).Some? <==>
              && |FindAll(loc.block, TitledSpan)| > 0
              && loc.parent.Some?
              && |FindAll(loc.parent.value, ListTitle)| > 0
              && |FindAll(FindAll(loc.parent.value, ListTitle)[0], HrefAnchor)| > 0
    ensures ExtractFromBlock(loc).Some? ==>
              var subject := FindAll(loc.parent.value, ListTitle)[0];
              ExtractFromBlock(loc).value == AuthorLink(
                FindAll(loc.block, TitledSpan)[0].attrs["title"],
                ServiceBaseUrl + FindAll(subject, HrefAnchor)[0].attrs["href"])
  {
    FindIsFirstOfFindAll(loc.block, TitledSpan);
    if loc.parent.Some? {
      var article := loc.parent.value;
      FindIsFirstOfFindAll(article, ListTitle);
      if Find(article, ListTitle).Some? {
        var subject := Find(article, ListTitle).value;
        FindIsFirstOfFindAll(subject, HrefAnchor);
      }
    }
  }

  /** The entries of a run of author blocks, skipping malformed blocks. */
  function ExtractAll(locs: seq<Located>): (r: seq<AuthorLink>)
    ensures |r| <= |locs|
    ensures forall i :: 0 <= i < |r| ==> IsServiceLink(r[i].link)
  {
    if locs == [] then []
    else
      var rest := ExtractAll(locs[1..]);
      match ExtractFromBlock(locs[0])
      case None => rest
      case Some(entry) => [entry] + rest
  }

  /** Extraction respects document order: the entries of `a + b` are those of
      `a` followed by those of `b`. */
  lemma {:induction false} ExtractAllAppend(a: seq<Located>, b: seq<Located>)
    ensures ExtractAll(a + b) == ExtractAll(a) + ExtractAll(b)
  {
    if a == [] {
      assert a + b == b;
    } else {
      assert (a + b)[1..] == a[1..] + b;
      ExtractAllAppend(a[1..], b);
    }
  }

  /** One step of extraction: the first block's entry, if any, then the rest. */
  lemma ExtractAllCons(locs: seq<Located>)
    requires locs != []
    ensures ExtractAll(locs) == EntryOf(locs[0]) + ExtractAll(locs[1..])
  {
  }

  /** The entries one block contributes: none or one. */
  function EntryOf(loc: Located): (r: seq<AuthorLink>)
    ensures |r| <= 1
    ensures forall x :: x in r <==> ExtractFromBlock(loc) == Some(x)
  {
    match ExtractFromBlock(loc)
    case None => []
    case Some(e) => [e]
  }

  /** An entry is extracted exactly when some block yields it. */
  lemma {:induction false} ExtractAllMembership(locs: seq<Located>, x: AuthorLink)
    ensures x in ExtractAll(locs) <==> exists i :: 0 <= i < |locs| && ExtractFromBlock(locs[i]) == Some(x)
  {
    if locs != [] {
      var rest := locs[1..];
      assert x in ExtractAll(locs) <==> x in EntryOf(locs[0]) || x in ExtractAll(rest) by {
        ExtractAllCons(locs);
      }
      ExtractAllMembership(rest, x);
      if x in ExtractAll(rest) {
        var j :| 0 <= j < |rest| && ExtractFromBlock(rest[j]) == Some(x);
        assert locs[j + 1] == rest[j];
      }
      if exists i :: 0 <= i < |locs| && ExtractFromBlock(locs[i]) == Some(x) {
        var i :| 0 <= i < |locs| && ExtractFromBlock(locs[i]) == Some(x);
        if i > 0 {
          assert rest[i - 1] == locs[i];
        }
      }
    }
  }

  /** The entries of a whole listing page: at most one per `list_author`
      block, each link on the service base. */
  function Extract(doc: Element): (r: seq<AuthorLink>)
    ensures |r| <= |FindAll(doc, ListAuthor)|
    ensures forall i :: 0 <= i < |r| ==> IsServiceLink(r[i].link)
  {
    FindAllWithParentSound(doc, ListAuthor);
    ExtractAll(FindAllWithParent(doc, ListAuthor))
  }

  /** Every entry of a page comes from the page: its author is the `title` of
      a titled span of the document, and its link is the service base
      followed by the `href` of an anchor of the document. */
  lemma ExtractFromPage(doc: Element)
    ensures forall x :: x in Extract(doc) ==>
              exists span :: span in Descendants(doc) && Matches(TitledSpan, span) &&
                x.author == span.attrs["title"]
    ensures forall x :: x in Extract(doc) ==>
              exists a :: a in Descendants(doc) && Matches(HrefAnchor, a) &&
                x.link == ServiceBaseUrl + a.attrs["href"]
  {
    var locs := FindAllWithParent(doc, ListAuthor);
    FindAllWithParentSound(doc, ListAuthor);
    forall x | x in Extract(doc)
      ensures exists span :: span in Descendants(doc) && Matches(TitledSpan, span) &&
                x.author == span.attrs["title"]
      ensures exists a :: a in Descendants(doc) && Matches(HrefAnchor, a) &&
                x.link == ServiceBaseUrl + a.attrs["href"]
    {
      ExtractAllMembership(locs, x);
      var i :| 0 <= i < |locs| && ExtractFromBlock(locs[i]) == Some(x);
      var loc := locs[i];
      assert loc in locs;
      ExtractFromBlockSound(loc);
      var span :| span in Descendants(loc.block) && Matches(TitledSpan, span) && x.author == span.attrs["title"];
      DescendantOfDescendant(doc, loc.block, span);
      var a :| a in Descendants(loc.parent.value) && Matches(HrefAnchor, a) &&
                 x.link == ServiceBaseUrl + a.attrs["href"];
      if loc.parent.value != doc {
        DescendantOfDescendant(doc, loc.parent.value, a);
      }
    }
  }

  /** `_get_list_of_author_name_and_article_link_tuple`: search the page for
      its `list_author` blocks and collect their entries. */
  method GetListOfAuthorNameAndArticleLink(doc: Element) returns (r: seq<AuthorLink>)
    ensures r == Extract(doc)
    ensures |r| <= |FindAll(doc, ListAuthor)|
    ensures forall i :: 0 <= i < |r| ==> IsServiceLink(r[i].link)
  {
    r := ExtractEach(FindAllWithParent(doc, ListAuthor));
  }

  /** The extractor's loop: walk the blocks in document order and append the
      entry of every well-formed one. */
  method ExtractEach(blocks: seq<Located>) returns (r: seq<AuthorLink>)
    ensures r == ExtractAll(blocks)
  {
    r := [];
    var i := 0;
    while i < |blocks|
      invariant 0 <= i <= |blocks|
      invariant ExtractAll(blocks) == r + ExtractAll(blocks[i..])
    {
      assert ExtractAll(blocks) == (r + EntryOf(blocks[i])) + ExtractAll(blocks[i + 1..]) by {
        ExtractAllCons(blocks[i..]);
        assert blocks[i..][1..] == blocks[i + 1..];
      }
      r := r + EntryOf(blocks[i]);
      i := i + 1;
    }
  }

  /** Every block a document-wide search finds has a parent, so on a whole
      page only the span, `list_title` and `a[href]` checks can drop a block. */
  lemma PageBlocksHaveParents(doc: Element)
    ensures forall l :: l in FindAllWithParent(doc, ListAuthor) ==> l.parent.Some?
  {
    FindAllWithParentSound(doc, ListAuthor);
  }
}
