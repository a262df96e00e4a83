/** The home page: the caller's links, newest first, their count, and the
    capture form for a signed-in caller. */
module Page {
  import opened Wrappers
  import opened Text
  import opened Schema
  import opened Actions
  import opened Seqs

  ghost predicate NewestFirst(links: seq<Link>) {
    forall i, j :: 0 <= i < j < |links| ==> links[i].createdAt >= links[j].createdAt
  }

  /** The order `orderBy(desc(links.createdAt))` asks for. */
  function NewerOrSame(a: Link, b: Link): bool {
    a.createdAt >= b.createdAt
  }

  lemma NewerOrSameTotal()
    ensures Total(NewerOrSame)
  {
  }

  /** Adjacent rows in order make the whole list newest first. */
  lemma {:induction false} SortedNewestFirst(s: seq<Link>)
    requires SortedBy(s, NewerOrSame)
    ensures NewestFirst(s)
  {
    if s != [] {
      SortedTail(s, NewerOrSame);
      SortedNewestFirst(s[1..]);
      if |s| > 1 {
        assert InOrderAt(s, NewerOrSame, 0);
      }
      assert forall j :: 0 < j < |s| ==> s[j] == s[1..][j - 1];
    }
  }

  /** `orderBy(desc(links.createdAt))`: the same rows, newest first. Rows
      with the same time come out in an order the database leaves open. */
  function SortNewestFirst(rows: seq<Link>): (r: seq<Link>)
    ensures NewestFirst(r)
    ensures multiset(r) == multiset(rows)
  {
    NewerOrSameTotal();
    var r := SortBy(rows, NewerOrSame);
    SortedNewestFirst(r);
    r
  }

  /** `getLinks()`: nothing for a caller who is not signed in; otherwise
      exactly the caller's rows, newest first. */
  function GetLinks(rows: seq<Link>, userId: Option<string>): (r: seq<Link>)
    ensures !Present(userId) ==> r == []
    ensures Present(userId) ==> multiset(r) == multiset(OwnedBy(rows, userId.value))
    ensures Present(userId) ==> forall l :: l in r <==> l in rows && l.userId == userId.value
    ensures NewestFirst(r)
  {
    if !Present(userId) then []
    else
      var r := SortNewestFirst(OwnedBy(rows, userId.value));
      assert forall l :: l in r <==> l in multiset(r);
      r
  }

  /** What the page renders: the count line, whether the capture form is
      shown, and the list handed to the vault. */
  datatype HomeView = HomeView(itemCount: nat, showAddLink: bool, vault: seq<Link>)

  function Home(rows: seq<Link>, userId: Option<string>): (v: HomeView)
    ensures v.itemCount == |v.vault|
    ensures v.itemCount == if Present(userId) then |OwnedBy(rows, userId.value)| else 0
    ensures v.showAddLink <==> Present(userId)
    ensures v.vault == GetLinks(rows, userId)
  {
    var links := GetLinks(rows, userId);
    assert |links| == |multiset(links)|;
    HomeView(|links|, Present(userId), links)
  }

  /** How many of `uid`'s rows have the url `url`. */
  function Copies(rows: seq<Link>, uid: string, url: string): (n: nat)
    ensures n == 0 <==> !Collected(rows, uid, url)
  {
    if rows == [] then 0
    else (if rows[0].userId == uid && rows[0].url == url then 1 else 0) + Copies(rows[1..], uid, url)
  }

  lemma {:induction false} CopiesAppend(rows: seq<Link>, l: Link, uid: string, url: string)
    ensures Copies(rows + [l], uid, url) == Copies(rows, uid, url) + (if l.userId == uid && l.url == url then 1 else 0)
  {
    if rows != [] {
      assert (rows + [l])[1..] == rows[1..] + [l];
      CopiesAppend(rows[1..], l, uid, url);
    }
  }

  /** A successful `addLink` followed by `getLinks` for the same caller: the
      new row is listed, the count grows by one, and the table holds the
      caller's `(userId, url)` pair exactly once. */
  lemma AddThenList(rows: seq<Link>, userId: Option<string>, form: FormData, storeFails: bool, id: LinkId, now: Timestamp)
    requires AddDecision(rows, userId, form, storeFails).Insert?
    ensures var o := AddDecision(rows, userId, form, storeFails);
            var after := AfterAdd(rows, o, id, now);
            && Materialise(o.row, id, now) in GetLinks(after, userId)
            && Home(after, userId).itemCount == Home(rows, userId).itemCount + 1
            && Copies(after, userId.value, o.row.url) == 1
  {
    var o := AddDecision(rows, userId, form, storeFails);
    var l := Materialise(o.row, id, now);
    var after := AfterAdd(rows, o, id, now);
    assert l in after;
    CopiesAppend(rows, l, userId.value, o.row.url);
    OwnedByAppend(rows, l, userId.value);
  }

  lemma {:induction false} OwnedByAppend(rows: seq<Link>, l: Link, uid: string)
    ensures OwnedBy(rows + [l], uid) == OwnedBy(rows, uid) + (if l.userId == uid then [l] else [])
  {
    if rows != [] {
      assert (rows + [l])[1..] == rows[1..] + [l];
      OwnedByAppend(rows[1..], l, uid);
    }
  }

  /** A rejected `addLink` leaves the listing and its count as they were. */
  lemma RejectedAddKeepsList(rows: seq<Link>, userId: Option<string>, form: FormData, storeFails: bool, id: LinkId, now: Timestamp)
    requires !AddDecision(rows, userId, form, storeFails).Insert?
    ensures GetLinks(AfterAdd(rows, AddDecision(rows, userId, form, storeFails), id, now), userId) == GetLinks(rows, userId)
  {
  }
}
