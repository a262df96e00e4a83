/** The server actions over the `links` table: adding, deleting and
    searching a signed-in user's links, and the title preview. The signed-in
    user arrives as `userId` (`None` when nobody is signed in), the table is
    a `LinkStore`, and the URL parser is a `Parser`. */
module Actions {
  import opened Wrappers
  import opened Text
  import opened Schema
  import opened SafeUrl
  import opened Seqs

  /** The submitted form; a field is `None` when the form does not carry it. */
  datatype FormData = FormData(
    url: Option<string>,
    title: Option<string>,
    italicKeyword: Option<string>,
    contextNote: Option<string>,
    category: Option<string>)

  /** `{ success, message }`, what every mutating action answers. */
  datatype ActionState = ActionState(success: bool, message: string)

  // ---------------------------------------------------------------------
  // addLink

  /** The sanitising step: a non-empty URL with no "http" prefix that has a
      '.' is given the "https://" scheme; any other value is left alone. */
  function NormaliseUrl(url: Option<string>): (r: Option<string>)
    ensures Present(r) <==> Present(url)
    ensures Present(url) && !StartsWith(url.value, "http") && Contains(url.value, ".") ==>
              r == Some("https://" + url.value)
    ensures !(Present(url) && !StartsWith(url.value, "http") && Contains(url.value, ".")) ==> r == url
  {
    if Present(url) && !StartsWith(url.value, "http") && Contains(url.value, ".") then
      Some("https://" + url.value)
    else url
  }

  /** Sanitising twice is sanitising once: the prefixed URL starts with "http". */
  lemma NormaliseIdempotent(url: Option<string>)
    ensures NormaliseUrl(NormaliseUrl(url)) == NormaliseUrl(url)
  {
    var n := NormaliseUrl(url);
    if n != url {
      assert n.value[..4] == "http";
    }
  }

  /** `value || null` */
  function OrNull(v: Option<string>): (r: Option<string>)
    ensures Present(v) ==> r == v
    ensures !Present(v) ==> r == None
  {
    if Present(v) then v else None
  }

  /** `value || fallback` */
  function OrElse(v: Option<string>, fallback: string): (r: string)
    ensures Present(v) ==> r == v.value
    ensures !Present(v) ==> r == fallback
  {
    if Present(v) then v.value else fallback
  }

  /** Whether the table already holds a row of owner `uid` for `url`. */
  function Collected(rows: seq<Link>, uid: string, url: string): (r: bool)
    ensures r <==> exists i :: PairAt(rows, i, uid, url)
  {
    if rows == [] then false
    else if rows[0].userId == uid && rows[0].url == url then
      assert PairAt(rows, 0, uid, url);
      true
    else
      var r := Collected(rows[1..], uid, url);
      assert forall i :: PairAt(rows[1..], i, uid, url) <==> PairAt(rows, i + 1, uid, url);
      assert forall i :: PairAt(rows, i, uid, url) ==> i > 0 && PairAt(rows[1..], i - 1, uid, url);
      r
  }

  /** How `addLink` ends. */
  datatype AddOutcome =
    | NotSignedIn
    | MissingField
    | AlreadyCollected
    | StoreError
    | Insert(row: NewLink)

  /** The decision `addLink` takes on a table, a caller and a form;
      `storeFails` says that the database call throws. */
  function AddDecision(rows: seq<Link>, userId: Option<string>, form: FormData, storeFails: bool): (o: AddOutcome)
    ensures o.NotSignedIn? <==> !Present(userId)
    ensures o.MissingField? <==> Present(userId) && !(Present(NormaliseUrl(form.url)) && Present(form.title))
    ensures o.StoreError? <==> Present(userId) && Present(NormaliseUrl(form.url)) && Present(form.title) && storeFails
    ensures o.AlreadyCollected? <==>
              Present(userId) && Present(NormaliseUrl(form.url)) && Present(form.title) && !storeFails
              && exists i :: PairAt(rows, i, userId.value, NormaliseUrl(form.url).value)
    ensures o.Insert? ==>
              && Present(userId)
              && !(exists i :: PairAt(rows, i, userId.value, o.row.url))
              && o.row == NewLink(userId.value, NormaliseUrl(form.url).value, form.title.value,
                                  Omitted,
                                  Given(OrNull(form.italicKeyword)),
                                  Given(OrNull(form.contextNote)),
                                  Given(Some(OrElse(form.category, DefaultCategory))))
  {
    if !Present(userId) then NotSignedIn
    else
      var url := NormaliseUrl(form.url);
      if !Present(url) || !Present(form.title) then MissingField
      else if storeFails then StoreError
      else if Collected(rows, userId.value, url.value) then AlreadyCollected
      else Insert(NewLink(userId.value, url.value, form.title.value,
                          Omitted,
                          Given(OrNull(form.italicKeyword)),
                          Given(OrNull(form.contextNote)),
                          Given(Some(OrElse(form.category, DefaultCategory)))))
  }

  /** The answer the action returns for each outcome. */
  function AddAnswer(o: AddOutcome): (s: ActionState)
    ensures s.success <==> o.Insert?
  {
    match o
    case NotSignedIn => ActionState(false, "Unauthorized")
    case MissingField => ActionState(false, "URL and Title are required")
    case AlreadyCollected => ActionState(false, "Link already collected.")
    case StoreError => ActionState(false, "Failed to save link")
    case Insert(_) => ActionState(true, "Link collected.")
  }

  /** The table after the outcome: one new row on `Insert`, unchanged otherwise. */
  function AfterAdd(rows: seq<Link>, o: AddOutcome, id: LinkId, now: Timestamp): (r: seq<Link>)
    ensures o.Insert? ==> r == rows + [Materialise(o.row, id, now)]
    ensures !o.Insert? ==> r == rows
  {
    if o.Insert? then rows + [Materialise(o.row, id, now)] else rows
  }

  /** A stored row added by `addLink` carries the caller, the sanitised URL,
      the title, `category || "General"`, and NULL for an empty keyword or
      note. */
  lemma AddedRow(rows: seq<Link>, userId: Option<string>, form: FormData, storeFails: bool, id: LinkId, now: Timestamp)
    requires AddDecision(rows, userId, form, storeFails).Insert?
    ensures var r := AfterAdd(rows, AddDecision(rows, userId, form, storeFails), id, now);
            var l := r[|rows|];
            && |r| == |rows| + 1 && r[..|rows|] == rows
            && l.id == id && l.createdAt == now
            && l.userId == userId.value && l.url == NormaliseUrl(form.url).value && l.title == form.title.value
            && l.category == Some(if Present(form.category) then form.category.value else "General")
            && l.description == None
            && (Present(form.italicKeyword) ==> l.italicKeyword == form.italicKeyword)
            && (!Present(form.italicKeyword) ==> l.italicKeyword == None)
            && (Present(form.contextNote) ==> l.contextNote == form.contextNote)
            && (!Present(form.contextNote) ==> l.contextNote == None)
  {
    var o := AddDecision(rows, userId, form, storeFails);
    var r := AfterAdd(rows, o, id, now);
    assert r[|rows|] == Materialise(o.row, id, now);
    assert r[..|rows|] == rows;
  }

  /** `addLink` never stores a second row for a `(userId, url)` pair, so the
      pairs it has stored stay distinct. */
  lemma AddKeepsPairsDistinct(rows: seq<Link>, userId: Option<string>, form: FormData, storeFails: bool, id: LinkId, now: Timestamp)
    requires DistinctPairs(rows)
    ensures DistinctPairs(AfterAdd(rows, AddDecision(rows, userId, form, storeFails), id, now))
  {
    var o := AddDecision(rows, userId, form, storeFails);
    if o.Insert? {
      var r := AfterAdd(rows, o, id, now);
      var l := Materialise(o.row, id, now);
      forall i, j | 0 <= i < j < |r|
        ensures !(r[i].userId == r[j].userId && r[i].url == r[j].url)
      {
        if j == |rows| {
          assert r[i] == rows[i] && r[j] == l;
          assert !PairAt(rows, i, l.userId, l.url);
        } else {
          assert r[i] == rows[i] && r[j] == rows[j];
        }
      }
    }
  }

  // ---------------------------------------------------------------------
  // deleteLink

  /** The rows `delete ... where id = linkId and userId = uid` keeps, in order. */
  function Without(rows: seq<Link>, uid: string, linkId: LinkId): (r: seq<Link>)
    ensures forall l :: l in r <==> l in rows && !(l.id == linkId && l.userId == uid)
    ensures Subseq(r, rows)
  {
    if rows == [] then []
    else
      var rest := Without(rows[1..], uid, linkId);
      assert forall l :: l in rows <==> l == rows[0] || l in rows[1..];
      if rows[0].id == linkId && rows[0].userId == uid then
        rest
      else
        assert ([rows[0]] + rest)[1..] == rest;
        [rows[0]] + rest
  }

  /** The delete keeps every other row as often as the table holds it. */
  lemma {:induction false} WithoutCounts(rows: seq<Link>, uid: string, linkId: LinkId)
    ensures forall l :: multiset(Without(rows, uid, linkId))[l] ==
                        if l.id == linkId && l.userId == uid then 0 else multiset(rows)[l]
  {
    if rows != [] {
      assert rows == [rows[0]] + rows[1..];
      WithoutCounts(rows[1..], uid, linkId);
    }
  }

  /** Rows that do not match are kept as they are: with no match the table is
      unchanged. */
  lemma {:induction false} WithoutNoMatch(rows: seq<Link>, uid: string, linkId: LinkId)
    requires forall l :: l in rows ==> !(l.id == linkId && l.userId == uid)
    ensures Without(rows, uid, linkId) == rows
  {
    if rows != [] {
      WithoutNoMatch(rows[1..], uid, linkId);
    }
  }

  /** Deleting twice is deleting once. */
  lemma DeleteIdempotent(rows: seq<Link>, uid: string, linkId: LinkId)
    ensures Without(Without(rows, uid, linkId), uid, linkId) == Without(rows, uid, linkId)
  {
    WithoutNoMatch(Without(rows, uid, linkId), uid, linkId);
  }

  /** The primary key of a table with one more row in front. */
  lemma DistinctIdsCons(x: Link, t: seq<Link>)
    ensures DistinctIds([x] + t) <==> (forall l :: l in t ==> l.id != x.id) && DistinctIds(t)
  {
    var r := [x] + t;
    assert forall i :: 0 <= i < |t| ==> r[i + 1] == t[i];
    if DistinctIds(r) {
      forall l | l in t ensures l.id != x.id {
        var k :| 0 <= k < |t| && t[k] == l;
        assert r[0] == x && r[k + 1] == l;
      }
      forall i, j | 0 <= i < j < |t| ensures t[i].id != t[j].id {
        assert r[i + 1] == t[i] && r[j + 1] == t[j];
      }
    }
    if (forall l :: l in t ==> l.id != x.id) && DistinctIds(t) {
      forall i, j | 0 <= i < j < |r| ensures r[i].id != r[j].id {
        if i == 0 {
          assert r[j] == t[j - 1] && t[j - 1] in t;
        } else {
          assert r[i] == t[i - 1] && r[j] == t[j - 1];
        }
      }
    }
  }

  /** Removing rows keeps the primary key distinct. */
  lemma {:induction false} WithoutDistinctIds(rows: seq<Link>, uid: string, linkId: LinkId)
    requires DistinctIds(rows)
    ensures DistinctIds(Without(rows, uid, linkId))
  {
    if rows != [] {
      assert rows == [rows[0]] + rows[1..];
      DistinctIdsCons(rows[0], rows[1..]);
      WithoutDistinctIds(rows[1..], uid, linkId);
      var rest := Without(rows[1..], uid, linkId);
      if !(rows[0].id == linkId && rows[0].userId == uid) {
        DistinctIdsCons(rows[0], rest);
      }
    }
  }

  // ---------------------------------------------------------------------
  // searchLinks

  /** The owner's rows in table order: `where(eq(links.userId, uid))`. */
  function OwnedBy(rows: seq<Link>, uid: string): (r: seq<Link>)
    ensures forall l :: l in r <==> l in rows && l.userId == uid
    ensures Subseq(r, rows)
  {
    if rows == [] then []
    else
      var rest := OwnedBy(rows[1..], uid);
      assert forall l :: l in rows <==> l == rows[0] || l in rows[1..];
      if rows[0].userId == uid then
        assert ([rows[0]] + rest)[1..] == rest;
        [rows[0]] + rest
      else rest
  }

  /** The owner query returns each of the caller's rows as often as the
      table holds it. */
  lemma {:induction false} OwnedByCounts(rows: seq<Link>, uid: string)
    ensures forall l :: multiset(OwnedBy(rows, uid))[l] == if l.userId == uid then multiset(rows)[l] else 0
  {
    if rows != [] {
      assert rows == [rows[0]] + rows[1..];
      OwnedByCounts(rows[1..], uid);
    }
  }

  /** The query (already lower-cased) is in the lower-cased title, keyword
      or category. */
  predicate FieldHit(l: Link, q: string) {
    || Contains(Lower(l.title), q)
    || (Present(l.italicKeyword) && Contains(Lower(l.italicKeyword.value), q))
    || (Present(l.category) && Contains(Lower(l.category.value), q))
  }

  /** The search criterion: a field hit, or the query is in the hostname. */
  ghost predicate Hit(l: Link, q: string, parse: Parser) {
    FieldHit(l, q) || (parse(l.url).Some? && Contains(parse(l.url).value.hostname, q))
  }

  /** A field hit is an occurrence of the query in the lower-cased title,
      or in a non-empty keyword or category. */
  lemma FieldHitMeaning(l: Link, q: string)
    ensures FieldHit(l, q) <==>
              || Occurs(Lower(l.title), q)
              || (Present(l.italicKeyword) && Occurs(Lower(l.italicKeyword.value), q))
              || (Present(l.category) && Occurs(Lower(l.category.value), q))
  {
    assert Contains(Lower(l.title), q) == Occurs(Lower(l.title), q);
    if Present(l.italicKeyword) {
      assert Contains(Lower(l.italicKeyword.value), q) == Occurs(Lower(l.italicKeyword.value), q);
    }
    if Present(l.category) {
      assert Contains(Lower(l.category.value), q) == Occurs(Lower(l.category.value), q);
    }
  }

  /** A hit is a field hit or an occurrence of the query in the hostname
      of a URL that parses. */
  lemma HitMeaning(l: Link, q: string, parse: Parser)
    ensures Hit(l, q, parse) <==>
              FieldHit(l, q) || (parse(l.url).Some? && Occurs(parse(l.url).value.hostname, q))
  {
    if parse(l.url).Some? {
      assert Contains(parse(l.url).value.hostname, q) == Occurs(parse(l.url).value.hostname, q);
    }
  }

  /** One row's test, evaluated left to right; `None` when it gets as far as
      `new URL(link.url)` and that throws. */
  function RowTest(l: Link, q: string, parse: Parser): (r: Option<bool>)
    ensures r.None? <==> !FieldHit(l, q) && parse(l.url).None?
    ensures r.Some? ==> (r.value <==> Hit(l, q, parse))
  {
    if FieldHit(l, q) then Some(true)
    else
      match parse(l.url)
      case None => None
      case Some(u) => Some(Contains(u.hostname, q))
  }

  /** `rows.filter(test)`; `None` when some row's test throws. */
  function FilterHits(rows: seq<Link>, q: string, parse: Parser): (r: Option<seq<Link>>)
    ensures r.None? <==> exists l :: l in rows && RowTest(l, q, parse).None?
    ensures r.Some? ==> (forall l :: l in r.value <==> l in rows && Hit(l, q, parse)) && Subseq(r.value, rows)
  {
    if rows == [] then Some([])
    else
      assert forall l :: l in rows <==> l == rows[0] || l in rows[1..];
      match RowTest(rows[0], q, parse)
      case None => None
      case Some(b) =>
        match FilterHits(rows[1..], q, parse)
        case None => None
        case Some(t) =>
          if b then
            assert ([rows[0]] + t)[1..] == t;
            Some([rows[0]] + t)
          else Some(t)
  }

  /** The filter keeps each hit as often as its input holds it. */
  lemma {:induction false} FilterHitsCounts(rows: seq<Link>, q: string, parse: Parser)
    requires FilterHits(rows, q, parse).Some?
    ensures forall l :: multiset(FilterHits(rows, q, parse).value)[l] ==
                        if Hit(l, q, parse) then multiset(rows)[l] else 0
  {
    if rows != [] {
      assert rows == [rows[0]] + rows[1..];
      FilterHitsCounts(rows[1..], q, parse);
    }
  }

  const SearchLimit: nat := 5

  /** `searchLinks(query)`: up to five of the caller's rows, in table order,
      whose title, keyword or category contains the lower-cased query, or
      whose hostname does; `None` stands for an exception, thrown by the
      owner query when the database fails (`storeFails`) or by the filter
      when a row's URL does not parse. */
  function SearchLinks(rows: seq<Link>, userId: Option<string>, query: string, storeFails: bool, parse: Parser): (r: Option<seq<Link>>)
    ensures !Present(userId) || query == "" ==> r == Some([])
    ensures r.Some? ==> |r.value| <= SearchLimit
    ensures r.Some? && Present(userId) ==>
              && Subseq(r.value, rows)
              && (forall l :: l in r.value ==> l in rows && l.userId == userId.value && Hit(l, Lower(query), parse))
    ensures r.Some? && Present(userId) && query != "" && |r.value| < SearchLimit ==>
              forall l :: l in rows && l.userId == userId.value && Hit(l, Lower(query), parse) ==> l in r.value
    ensures Present(userId) && query != "" && storeFails ==> r.None?
    ensures r.None? && !storeFails ==>
              exists l :: l in rows && Present(userId) && l.userId == userId.value
                          && !FieldHit(l, Lower(query)) && parse(l.url).None?
    ensures r.Some? && Present(userId) && query != "" ==>
              && FilterHits(OwnedBy(rows, userId.value), Lower(query), parse).Some?
              && var hits := FilterHits(OwnedBy(rows, userId.value), Lower(query), parse).value;
                 r.value == hits[..if |hits| < SearchLimit then |hits| else SearchLimit]
  {
    if !Present(userId) || query == "" then Some([])
    else if storeFails then None
    else
      var own := OwnedBy(rows, userId.value);
      match FilterHits(own, Lower(query), parse)
      case None => None
      case Some(hits) =>
        if |hits| <= SearchLimit then
          SubseqTrans(hits, own, rows);
          SubseqMembers(hits, rows);
          Some(hits)
        else
          SubseqPrefix(hits, own, SearchLimit);
          SubseqTrans(hits[..SearchLimit], own, rows);
          SubseqMembers(hits[..SearchLimit], rows);
          Some(hits[..SearchLimit])
  }

  // ---------------------------------------------------------------------
  // fetchMetadata

  const TitleOpen: string := "<title>"
  const TitleClose: string := "</title>"

  /** The characters a regular-expression `.` does not match. */
  predicate IsLineTerminator(c: char) {
    c == '\n' || c == '\r' || c == '\U{2028}' || c == '\U{2029}'
  }

  ghost predicate ClosesAt(html: string, j: int) {
    0 <= j && j + |TitleClose| <= |html| && html[j..j + |TitleClose|] == TitleClose
  }

  ghost predicate Clean(html: string, k: int, j: int) {
    forall m :: k <= m < j && 0 <= m < |html| ==> !IsLineTerminator(html[m])
  }

  /** `/<title>(.*?)<\/title>/` matches with `<title>` at `i` and `</title>` at `j`. */
  ghost predicate TitleMatch(html: string, i: int, j: int) {
    && 0 <= i && i + |TitleOpen| <= j
    && ClosesAt(html, j)
    && html[i..i + |TitleOpen|] == TitleOpen
    && Clean(html, i + |TitleOpen|, j)
  }

  /** `(i, j)` is the match the regular expression reports among those
      starting at or after `s`: the leftmost start, then the shortest body. */
  ghost predicate FirstMatchFrom(html: string, s: int, i: int, j: int) {
    && s <= i && TitleMatch(html, i, j)
    && forall i2, j2 :: s <= i2 && TitleMatch(html, i2, j2) ==> i < i2 || (i == i2 && j <= j2)
  }

  lemma ClosesAtHere(html: string, k: nat)
    requires k <= |html|
    ensures ClosesAt(html, k) <==> StartsWith(html[k..], TitleClose)
  {
    if k + |TitleClose| <= |html| {
      assert html[k..][..|TitleClose|] == html[k..k + |TitleClose|];
    }
  }

  /** The lazy `(.*?)` from `k`: the first `</title>` reached before any
      line terminator. */
  function CloseFrom(html: string, k: nat): (r: Option<nat>)
    requires k <= |html|
    ensures r.Some? ==> k <= r.value && ClosesAt(html, r.value) && Clean(html, k, r.value)
    ensures r.Some? ==> forall m :: k <= m < r.value ==> !ClosesAt(html, m)
    ensures r.None? ==> forall j :: k <= j && ClosesAt(html, j) ==> !Clean(html, k, j)
    decreases |html| - k
  {
    ClosesAtHere(html, k);
    if StartsWith(html[k..], TitleClose) then
      Some(k)
    else if k == |html| || IsLineTerminator(html[k]) then
      None
    else
      CloseFrom(html, k + 1)
  }

  /** The regular-expression search from start position `i` onwards. */
  function TitleFrom(html: string, i: nat): (r: Option<string>)
    requires i <= |html|
    ensures r.Some? ==> exists a, b :: FirstMatchFrom(html, i, a, b) && r.value == html[a + |TitleOpen|..b]
    ensures r.None? ==> forall a, b :: i <= a && TitleMatch(html, a, b) ==> false
    decreases |html| - i
  {
    if i + |TitleOpen| > |html| then
      None
    else if html[i..i + |TitleOpen|] == TitleOpen then
      match CloseFrom(html, i + |TitleOpen|)
      case Some(j) =>
        assert FirstMatchFrom(html, i, i, j);
        Some(html[i + |TitleOpen|..j])
      case None =>
        assert forall b :: !TitleMatch(html, i, b);
        var r := TitleFrom(html, i + 1);
        assert r.Some? ==> exists a, b :: FirstMatchFrom(html, i, a, b) && r.value == html[a + |TitleOpen|..b] by {
          if r.Some? {
            var a, b :| FirstMatchFrom(html, i + 1, a, b) && r.value == html[a + |TitleOpen|..b];
            assert FirstMatchFrom(html, i, a, b);
          }
        }
        r
    else
      assert forall b :: !TitleMatch(html, i, b);
      var r := TitleFrom(html, i + 1);
      assert r.Some? ==> exists a, b :: FirstMatchFrom(html, i, a, b) && r.value == html[a + |TitleOpen|..b] by {
        if r.Some? {
          var a, b :| FirstMatchFrom(html, i + 1, a, b) && r.value == html[a + |TitleOpen|..b];
          assert FirstMatchFrom(html, i, a, b);
        }
      }
      r
  }

  /** `html.match(/<title>(.*?)<\/title>/)?.[1]` */
  function FindTitle(html: string): (r: Option<string>)
    ensures r.Some? ==> exists a, b :: FirstMatchFrom(html, 0, a, b) && r.value == html[a + |TitleOpen|..b]
    ensures r.None? ==> forall a, b :: TitleMatch(html, a, b) ==> false
  {
    TitleFrom(html, 0)
  }

  /** What the preview shows. */
  datatype Metadata = Metadata(title: string, domain: string)

  /** `fetchMetadata(url)`: `body` is the fetched page (`None` when the
      fetch throws). The title is the trimmed first title element, or the
      hostname when there is none; every failure gives empty strings. */
  function FetchMetadata(url: string, body: Option<string>, parse: Parser): (r: Option<Metadata>)
    ensures r.None? <==> url == ""
    ensures url != "" && (body.None? || parse(url).None?) ==> r == Some(Metadata("", ""))
    ensures url != "" && body.Some? && parse(url).Some? ==>
              && r.value.domain == parse(url).value.hostname
              && (FindTitle(body.value).Some? ==> r.value.title == Trim(FindTitle(body.value).value))
              && (FindTitle(body.value).None? ==> r.value.title == Trim(parse(url).value.hostname))
  {
    if url == "" then None
    else
      match body
      case None => Some(Metadata("", ""))
      case Some(html) =>
        match parse(url)
        case None => Some(Metadata("", ""))
        case Some(u) =>
          var title := match FindTitle(html) case Some(t) => t case None => u.hostname;
          Some(Metadata(Trim(title), u.hostname))
  }

  // ---------------------------------------------------------------------
  // The table

  /** The `links` table, with the generator of fresh primary keys. */
  class LinkStore {
    var rows: seq<Link>
    var nextId: LinkId

    ghost predicate Valid()
      reads this
    {
      DistinctIds(rows) && forall l :: l in rows ==> l.id < nextId
    }

    constructor ()
      ensures Valid() && rows == []
    {
      rows := [];
      nextId := 0;
    }

    /** `addLink(form)` for the caller `userId`, at time `now`. */
    method AddLink(userId: Option<string>, form: FormData, storeFails: bool, now: Timestamp) returns (state: ActionState)
      requires Valid()
      modifies this
      ensures Valid()
      ensures state == AddAnswer(AddDecision(old(rows), userId, form, storeFails))
      ensures rows == AfterAdd(old(rows), AddDecision(old(rows), userId, form, storeFails), old(nextId), now)
      ensures nextId == if AddDecision(old(rows), userId, form, storeFails).Insert? then old(nextId) + 1 else old(nextId)
    {
      var o := AddDecision(rows, userId, form, storeFails);
      state := AddAnswer(o);
      if o.Insert? {
        var l := Materialise(o.row, nextId, now);
        assert forall k :: 0 <= k < |rows| ==> rows[k] in rows;
        rows := rows + [l];
        nextId := nextId + 1;
      }
    }

    /** `deleteLink(linkId)` for the caller `userId`. */
    method DeleteLink(userId: Option<string>, linkId: LinkId, storeFails: bool) returns (state: ActionState)
      requires Valid()
      modifies this
      ensures Valid() && nextId == old(nextId)
      ensures !Present(userId) ==> state == ActionState(false, "Unauthorized") && rows == old(rows)
      ensures Present(userId) && storeFails ==> state == ActionState(false, "Failed to delete link") && rows == old(rows)
      ensures Present(userId) && !storeFails ==>
                state == ActionState(true, "Link deleted") && rows == Without(old(rows), userId.value, linkId)
    {
      if !Present(userId) {
        state := ActionState(false, "Unauthorized");
      } else if storeFails {
        state := ActionState(false, "Failed to delete link");
      } else {
        WithoutDistinctIds(rows, userId.value, linkId);
        rows := Without(rows, userId.value, linkId);
        state := ActionState(true, "Link deleted");
      }
    }
  }
}
