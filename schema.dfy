/** The `links` table: one row per saved link. */
module Schema {
  import opened Wrappers

  /** The generated primary key. */
  type LinkId = nat

  /** `created_at`, as a number the caller supplies. */
  type Timestamp = int

  /** A stored row. Columns declared `notNull` are plain values; the others
      may hold SQL NULL, written `None`. */
  datatype Link = Link(
    id: LinkId,
    userId: string,
    url: string,
    title: string,
    description: Option<string>,
    italicKeyword: Option<string>,
    contextNote: Option<string>,
    category: Option<string>,
    createdAt: Timestamp)

  /** One optional column in an insert: left out (`undefined`), or given as
      a value or an explicit NULL. */
  datatype Column<T> = Omitted | Given(value: Option<T>)

  /** The values an insert supplies; `id` and `createdAt` come from the
      database defaults. */
  datatype NewLink = NewLink(
    userId: string,
    url: string,
    title: string,
    description: Column<string>,
    italicKeyword: Column<string>,
    contextNote: Column<string>,
    category: Column<string>)

  const DefaultCategory: string := "General"

  /** What an omitted column holds: its declared default, or NULL. */
  function OrColumnDefault(c: Column<string>, default: Option<string>): Option<string> {
    match c
    case Omitted => default
    case Given(v) => v
  }

  /** The row an insert creates, given the generated key and the time. */
  function Materialise(n: NewLink, id: LinkId, now: Timestamp): (l: Link)
    ensures l.id == id && l.createdAt == now
    ensures l.userId == n.userId && l.url == n.url && l.title == n.title
    ensures n.category.Omitted? ==> l.category == Some(DefaultCategory)
    ensures n.category.Given? ==> l.category == n.category.value
    ensures n.description.Omitted? ==> l.description == None
    ensures n.italicKeyword.Omitted? ==> l.italicKeyword == None
    ensures n.contextNote.Omitted? ==> l.contextNote == None
    ensures n.description.Given? ==> l.description == n.description.value
    ensures n.italicKeyword.Given? ==> l.italicKeyword == n.italicKeyword.value
    ensures n.contextNote.Given? ==> l.contextNote == n.contextNote.value
  {
    Link(id, n.userId, n.url, n.title,
         OrColumnDefault(n.description, None),
         OrColumnDefault(n.italicKeyword, None),
         OrColumnDefault(n.contextNote, None),
         OrColumnDefault(n.category, Some(DefaultCategory)),
         now)
  }

  /** The primary key: no two rows share an id. */
  ghost predicate DistinctIds(rows: seq<Link>) {
    forall i, j :: 0 <= i < j < |rows| ==> rows[i].id != rows[j].id
  }

  /** The row at index `i` has the owner `uid` and the url `url`. */
  ghost predicate PairAt(rows: seq<Link>, i: int, uid: string, url: string) {
    0 <= i < |rows| && rows[i].userId == uid && rows[i].url == url
  }

  /** No two rows share a `(userId, url)` pair. The table does not enforce
      this; only `addLink` keeps it. */
  ghost predicate DistinctPairs(rows: seq<Link>) {
    forall i, j :: 0 <= i < j < |rows| ==> !(rows[i].userId == rows[j].userId && rows[i].url == rows[j].url)
  }

  /** The table itself accepts a second row with a pair that is already
      stored: a two-row table can break `DistinctPairs` while its ids stay
      distinct. */
  lemma DuplicatePairsAllowed(a: Link, b: Link)
    requires a.id != b.id && a.userId == b.userId && a.url == b.url
    ensures DistinctIds([a, b]) && !DistinctPairs([a, b])
  {
    assert [a, b][0] == a && [a, b][1] == b;
  }
}
