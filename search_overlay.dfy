/** The search overlay: the query box, the debounced call to `searchLinks`
    and the list of results it shows. */
module SearchOverlay {
  import opened Wrappers
  import opened Text
  import opened Schema
  import opened SafeUrl
  import opened Actions

  /** One row of the result list; `href` is where a click navigates. */
  datatype Entry = Entry(kind: string, title: string, href: string, meta: Option<string>)

  /** The entry leading every list: the vault page itself. */
  const Home: Entry := Entry("page", "My Vault", "/", None)

  /** A found link as the overlay shows it. */
  function LinkEntry(l: Link): (e: Entry)
    ensures e.kind == "link" && e.title == l.title && e.href == l.url && e.meta == l.category
  {
    Entry("link", l.title, l.url, l.category)
  }

  /** The list after a search that found `links`: the vault page first,
      then one entry per link, in the order `searchLinks` returned them. */
  function ResultsFor(links: seq<Link>): (r: seq<Entry>)
    ensures |r| == |links| + 1 && r[0] == Home
    ensures forall i :: 0 <= i < |links| ==> r[i + 1] == LinkEntry(links[i])
    ensures forall i :: 0 <= i < |r| ==> (r[i].kind == "page" <==> i == 0)
  {
    [Home] + seq(|links|, i requires 0 <= i < |links| => LinkEntry(links[i]))
  }

  /** Every result a search shows leads either to the vault page or to the
      stored url of one of the caller's own links, and the list never holds
      more than the vault page and five links. */
  lemma ResultsAreOwnLinks(rows: seq<Link>, userId: Option<string>, query: string, storeFails: bool, parse: Parser)
    requires SearchLinks(rows, userId, query, storeFails, parse).Some?
    ensures var r := ResultsFor(SearchLinks(rows, userId, query, storeFails, parse).value);
            && |r| <= SearchLimit + 1
            && r[0].href == "/"
            && forall i :: 1 <= i < |r| ==>
                 exists l :: l in rows && Present(userId) && l.userId == userId.value && r[i].href == l.url
  {
    var links := SearchLinks(rows, userId, query, storeFails, parse).value;
    var r := ResultsFor(links);
    forall i | 1 <= i < |r|
      ensures exists l :: l in rows && Present(userId) && l.userId == userId.value && r[i].href == l.url
    {
      var l := links[i - 1];
      assert l in links;
      assert r[i] == LinkEntry(l);
    }
  }

  /** The overlay's own state: the query text, the result list and the
      busy flag. */
  class Overlay {
    var query: string
    var results: seq<Entry>
    var isSearching: bool

    /** Once any list has been set it begins with the vault page and holds
        at most five links after it. */
    ghost predicate Valid()
      reads this
    {
      results != [] ==> results[0] == Home && |results| <= SearchLimit + 1
    }

    constructor ()
      ensures Valid()
      ensures query == "" && results == [] && !isSearching
    {
      query := "";
      results := [];
      isSearching := false;
    }

    /** Typing into the box. */
    method SetQuery(q: string)
      modifies this
      ensures query == q && results == old(results) && isSearching == old(isSearching)
    {
      query := q;
    }

    /** The effect on `isSearchOpen`: closing the overlay clears the query. */
    method OpenChanged(isSearchOpen: bool)
      modifies this
      ensures query == if isSearchOpen then old(query) else ""
      ensures results == old(results) && isSearching == old(isSearching)
    {
      if !isSearchOpen {
        query := "";
      }
    }

    /** The debounced timer firing for the current query. A query of more
        than one character runs `searchLinks`; its links replace the list
        behind the vault page, a thrown error (a failing database or an
        unparsable URL) keeps the old list, and the busy flag ends cleared.
        A shorter query shows the vault page alone. */
    method Fire(rows: seq<Link>, userId: Option<string>, storeFails: bool, parse: Parser)
      requires Valid()
      modifies this
      ensures Valid()
      ensures query == old(query)
      ensures |query| > 1 ==> !isSearching
      ensures |query| > 1 && SearchLinks(rows, userId, query, storeFails, parse).Some? ==>
                results == ResultsFor(SearchLinks(rows, userId, query, storeFails, parse).value)
      ensures |query| > 1 && SearchLinks(rows, userId, query, storeFails, parse).None? ==> results == old(results)
      ensures |query| <= 1 ==> results == [Home] && isSearching == old(isSearching)
    {
      if |query| > 1 {
        isSearching := true;
        match SearchLinks(rows, userId, query, storeFails, parse) {
          case Some(links) =>
            results := ResultsFor(links);
          case None =>
        }
        isSearching := false;
      } else {
        results := [Home];
      }
    }
  }
}
