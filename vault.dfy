/** The vault view: the caller's links paginated ten at a time, grouped by
    category, with the categories in a fixed display order. */
module Vault {
  import opened Wrappers
  import opened Text
  import opened Schema
  import opened Seqs

  // ---------------------------------------------------------------------
  // Pagination

  const PageSize: nat := 10

  /** `links.slice(0, visibleCount)` */
  function VisibleLinks(links: seq<Link>, visibleCount: nat): (r: seq<Link>)
    ensures |r| == if visibleCount < |links| then visibleCount else |links|
    ensures r == links[..|r|]
  {
    if visibleCount < |links| then links[..visibleCount] else links
  }

  /** `visibleCount < links.length`, which shows the "Show More" button. */
  function HasMore(links: seq<Link>, visibleCount: nat): (b: bool)
    ensures b <==> |VisibleLinks(links, visibleCount)| < |links|
  {
    visibleCount < |links|
  }

  /** Everything is shown exactly when the button is gone. */
  lemma AllVisibleIffNoMore(links: seq<Link>, visibleCount: nat)
    ensures VisibleLinks(links, visibleCount) == links <==> !HasMore(links, visibleCount)
  {
  }

  /** The fewest "Show More" clicks after which all `count` links show. */
  function ClicksToShowAll(count: nat): (k: nat)
    ensures count <= PageSize + PageSize * k
    ensures k > 0 ==> PageSize + PageSize * (k - 1) < count
  {
    if count <= PageSize then 0 else (count - 1) / PageSize
  }

  /** After `k` clicks the button is gone exactly when `k` reaches
      `ClicksToShowAll`. */
  lemma NoMoreAfterClicks(links: seq<Link>, k: nat)
    ensures !HasMore(links, PageSize + PageSize * k) <==> k >= ClicksToShowAll(|links|)
  {
    var c := ClicksToShowAll(|links|);
    if k >= c {
      assert PageSize * k >= PageSize * c;
    } else {
      assert PageSize * k <= PageSize * (c - 1);
    }
  }

  /** The `visibleCount` state of the view; `clicks` counts the "Show More"
      clicks since the view was mounted. */
  class Pager {
    var visibleCount: nat
    ghost var clicks: nat

    ghost predicate Valid()
      reads this
    {
      visibleCount == PageSize + PageSize * clicks
    }

    constructor ()
      ensures Valid() && clicks == 0
      ensures visibleCount == PageSize
    {
      visibleCount := PageSize;
      clicks := 0;
    }

    /** The "Show More" click: `setVisibleCount(prev => prev + 10)`. */
    method ShowMore()
      requires Valid()
      modifies this
      ensures Valid() && clicks == old(clicks) + 1
      ensures visibleCount == old(visibleCount) + PageSize
    {
      visibleCount := visibleCount + PageSize;
      clicks := clicks + 1;
    }

    /** Whether every link is on screen: exactly when the button is gone,
        which is exactly after `ClicksToShowAll` clicks or more. */
    function ShowsAll(links: seq<Link>): (b: bool)
      requires Valid()
      reads this
      ensures b <==> VisibleLinks(links, visibleCount) == links
      ensures b <==> !HasMore(links, visibleCount)
      ensures b <==> clicks >= ClicksToShowAll(|links|)
    {
      AllVisibleIffNoMore(links, visibleCount);
      NoMoreAfterClicks(links, clicks);
      !HasMore(links, visibleCount)
    }

    /** The sections the view renders for the current page: the reduce as
        written throws exactly when a visible link's category names an
        inherited property; otherwise its groups, sorted by the comparator,
        are the visible links grouped by category. */
    method Sections(links: seq<Link>) returns (sections: Option<seq<Group>>)
      ensures sections.None? <==>
                exists l :: l in VisibleLinks(links, visibleCount) && CategoryKey(l) in InheritedNames
      ensures sections.Some? ==> sections.value == SortCategories(Grouped(VisibleLinks(links, visibleCount)))
    {
      var visible := VisibleLinks(links, visibleCount);
      match ReduceAsWritten(visible) {
        case None =>
          sections := None;
        case Some(grouped) =>
          ReduceAsWrittenAgrees(visible);
          sections := Some(SortCategories(grouped));
      }
    }
  }

  // ---------------------------------------------------------------------
  // Grouping

  /** `link.category || "General"`: never empty. */
  function CategoryKey(l: Link): (k: string)
    ensures Present(l.category) ==> k == l.category.value
    ensures !Present(l.category) ==> k == DefaultCategory
    ensures k != ""
  {
    if Present(l.category) then l.category.value else DefaultCategory
  }

  datatype Group = Group(category: string, links: seq<Link>)

  /** The links of category `k`, in their order in `s`. */
  function InCategory(s: seq<Link>, k: string): (r: seq<Link>)
    ensures |r| <= |s|
  {
    if s == [] then []
    else
      var init := s[..|s| - 1];
      var last := s[|s| - 1];
      InCategory(init, k) + (if CategoryKey(last) == k then [last] else [])
  }

  /** `InCategory` keeps exactly the links of its category. */
  lemma {:induction false} InCategoryMembers(s: seq<Link>, k: string)
    ensures forall l :: l in InCategory(s, k) <==> l in s && CategoryKey(l) == k
  {
    if s != [] {
      var init, last := s[..|s| - 1], s[|s| - 1];
      assert s == init + [last];
      InCategoryMembers(init, k);
    }
  }

  /** Within its group the links keep their relative order. */
  lemma {:induction false} InCategoryInOrder(s: seq<Link>, k: string)
    ensures Subseq(InCategory(s, k), s)
  {
    if s == [] {
    } else {
      var init, last := s[..|s| - 1], s[|s| - 1];
      assert s == init + [last];
      InCategoryInOrder(init, k);
      SubseqSnoc(InCategory(init, k), init, last);
      if CategoryKey(last) == k {
        assert InCategory(s, k) == InCategory(init, k) + [last];
      } else {
        assert InCategory(s, k) == InCategory(init, k);
      }
    }
  }

  ghost predicate Distinct(keys: seq<string>) {
    forall i, j :: 0 <= i < j < |keys| ==> keys[i] != keys[j]
  }

  /** The categories of `s`, each once, in order of first appearance. */
  function Categories(s: seq<Link>): (keys: seq<string>)
    ensures Distinct(keys)
  {
    if s == [] then []
    else
      var init := s[..|s| - 1];
      var last := s[|s| - 1];
      var keys := Categories(init);
      if CategoryKey(last) in keys then keys else keys + [CategoryKey(last)]
  }

  /** A category is listed exactly when some link has it. */
  lemma {:induction false} CategoriesMembers(s: seq<Link>, k: string)
    ensures k in Categories(s) <==> InCategory(s, k) != []
  {
    if s != [] {
      var init, last := s[..|s| - 1], s[|s| - 1];
      CategoriesMembers(init, k);
    }
  }

  /** The entries of the reduce's accumulator, in key-creation order. */
  function Grouped(s: seq<Link>): (g: seq<Group>)
    ensures |g| == |Categories(s)|
    ensures forall i :: 0 <= i < |g| ==> g[i] == Group(Categories(s)[i], InCategory(s, Categories(s)[i]))
  {
    var keys := Categories(s);
    seq(|keys|, i requires 0 <= i < |keys| => Group(keys[i], InCategory(s, keys[i])))
  }

  /** The groups partition the links: every link sits in the group of its
      category and in no other, every group holds only links of its
      category in their input order, no group is empty, and no category is
      keyed twice. */
  lemma GroupedPartition(s: seq<Link>)
    ensures var g := Grouped(s);
            && (forall i, j :: 0 <= i < j < |g| ==> g[i].category != g[j].category)
            && (forall i :: 0 <= i < |g| ==> g[i].links != [] && Subseq(g[i].links, s))
            && (forall i, l :: 0 <= i < |g| && l in g[i].links ==> l in s && CategoryKey(l) == g[i].category)
            && (forall l :: l in s ==> exists i :: 0 <= i < |g| && g[i].category == CategoryKey(l) && l in g[i].links)
  {
    var g := Grouped(s);
    var keys := Categories(s);
    forall i | 0 <= i < |g|
      ensures g[i].links != [] && Subseq(g[i].links, s)
      ensures forall l :: l in g[i].links ==> l in s && CategoryKey(l) == g[i].category
    {
      CategoriesMembers(s, keys[i]);
      InCategoryMembers(s, keys[i]);
      InCategoryInOrder(s, keys[i]);
    }
    forall l | l in s
      ensures exists i :: 0 <= i < |g| && g[i].category == CategoryKey(l) && l in g[i].links
    {
      var k := CategoryKey(l);
      InCategoryMembers(s, k);
      CategoriesMembers(s, k);
      assert k in keys;
      var i :| 0 <= i < |keys| && keys[i] == k;
      assert g[i].category == k && l in g[i].links;
    }
  }

  lemma CategoriesSnoc(s: seq<Link>, x: Link)
    ensures Categories(s + [x]) == if CategoryKey(x) in Categories(s) then Categories(s) else Categories(s) + [CategoryKey(x)]
  {
    assert (s + [x])[..|s|] == s;
  }

  lemma InCategorySnoc(s: seq<Link>, x: Link, k: string)
    ensures InCategory(s + [x], k) == InCategory(s, k) + (if CategoryKey(x) == k then [x] else [])
  {
    assert (s + [x])[..|s|] == s;
  }

  lemma GroupingSnoc(s: seq<Link>, x: Link)
    ensures Categories(s + [x]) == if CategoryKey(x) in Categories(s) then Categories(s) else Categories(s) + [CategoryKey(x)]
    ensures forall k :: InCategory(s + [x], k) == InCategory(s, k) + (if CategoryKey(x) == k then [x] else [])
  {
    CategoriesSnoc(s, x);
    forall k ensures InCategory(s + [x], k) == InCategory(s, k) + (if CategoryKey(x) == k then [x] else []) {
      InCategorySnoc(s, x, k);
    }
  }

  /** The reduce's accumulator after the links `s`: `order` lists the keys
      in creation order and `acc` maps each to its links. */
  ghost predicate Accumulates(acc: map<string, seq<Link>>, order: seq<string>, s: seq<Link>) {
    && order == Categories(s)
    && (forall k :: k in acc <==> k in order)
    && (forall k :: k in acc ==> acc[k] == InCategory(s, k))
  }

  /** One step of the reduce keeps the accumulator right. */
  lemma PushStep(acc: map<string, seq<Link>>, order: seq<string>, s: seq<Link>, x: Link)
    requires Accumulates(acc, order, s)
    ensures var c := CategoryKey(x);
            var acc1 := if c in acc then acc else acc[c := []];
            var order1 := if c in acc then order else order + [c];
            Accumulates(acc1[c := acc1[c] + [x]], order1, s + [x])
  {
    var c := CategoryKey(x);
    var acc1 := if c in acc then acc else acc[c := []];
    var order1 := if c in acc then order else order + [c];
    var acc2 := acc1[c := acc1[c] + [x]];
    CategoriesSnoc(s, x);
    assert order1 == Categories(s + [x]);
    forall k | k in acc2 ensures acc2[k] == InCategory(s + [x], k) {
      InCategorySnoc(s, x, k);
      if k == c && c !in acc {
        CategoriesMembers(s, c);
      }
    }
  }

  /** `Object.entries(acc)`, listing the pairs in key-creation order. For
      integer-like keys JavaScript uses ascending numeric order instead;
      `EntryOrderIrrelevant` shows the sorted sections do not depend on
      the order. */
  function Entries(acc: map<string, seq<Link>>, order: seq<string>): (g: seq<Group>)
    requires forall k :: k in order ==> k in acc
    ensures |g| == |order|
    ensures forall i :: 0 <= i < |order| ==> g[i] == Group(order[i], acc[order[i]])
  {
    seq(|order|, j requires 0 <= j < |order| => Group(order[j], acc[order[j]]))
  }

  lemma EntriesGrouped(acc: map<string, seq<Link>>, order: seq<string>, s: seq<Link>)
    requires Accumulates(acc, order, s)
    ensures Entries(acc, order) == Grouped(s)
  {
  }

  /** The `reduce` over the visible links, with its accumulator as a map
      from category to the links pushed so far and the order in which the
      keys were created. */
  method GroupByCategory(visible: seq<Link>) returns (groups: seq<Group>)
    ensures groups == Grouped(visible)
  {
    var acc: map<string, seq<Link>> := map[];
    var order: seq<string> := [];
    var i := 0;
    while i < |visible|
      invariant 0 <= i <= |visible|
      invariant Accumulates(acc, order, visible[..i])
    {
      var link := visible[i];
      var category := CategoryKey(link);
      PushStep(acc, order, visible[..i], link);
      assert visible[..i + 1] == visible[..i] + [link];
      if category !in acc {
        acc := acc[category := []];
        order := order + [category];
      }
      acc := acc[category := acc[category] + [link]];
      i := i + 1;
    }
    assert visible[..i] == visible;
    EntriesGrouped(acc, order, visible);
    groups := Entries(acc, order);
  }

  // ---------------------------------------------------------------------
  // The reduce as written, on a plain `{}` accumulator

  /** Properties every plain object inherits from `Object.prototype`. */
  const InheritedNames: set<string> := {
    "constructor", "__proto__", "hasOwnProperty", "isPrototypeOf",
    "propertyIsEnumerable", "toLocaleString", "toString", "valueOf",
    "__defineGetter__", "__defineSetter__", "__lookupGetter__", "__lookupSetter__" }

  /** What `acc[category]` finds on the plain-object accumulator. */
  datatype Slot = OwnArray(index: nat) | InheritedValue | Missing

  function FindSlot(acc: seq<Group>, key: string): (r: Slot)
    ensures r.InheritedValue? <==> key in InheritedNames
    ensures r.OwnArray? ==> r.index < |acc| && acc[r.index].category == key
    ensures r.Missing? ==> key !in InheritedNames && forall i :: 0 <= i < |acc| ==> acc[i].category != key
  {
    if key in InheritedNames then InheritedValue
    else Own(acc, key, 0)
  }

  function Own(acc: seq<Group>, key: string, from: nat): (r: Slot)
    requires from <= |acc|
    requires forall i :: 0 <= i < from ==> acc[i].category != key
    ensures r.OwnArray? ==> r.index < |acc| && acc[r.index].category == key
    ensures r.Missing? ==> forall i :: 0 <= i < |acc| ==> acc[i].category != key
    ensures !r.InheritedValue?
    decreases |acc| - from
  {
    if from == |acc| then Missing
    else if acc[from].category == key then OwnArray(from)
    else Own(acc, key, from + 1)
  }

  /** One step of the reduce as written: create the array when the lookup
      is falsy, then push; pushing onto an inherited property (a function
      or `Object.prototype`, which has no `push`) throws a TypeError,
      written `None`. */
  function PushAsWritten(acc: seq<Group>, link: Link): (r: Option<seq<Group>>)
    ensures r.None? <==> CategoryKey(link) in InheritedNames
    ensures r.Some? ==> |acc| <= |r.value| <= |acc| + 1
  {
    var category := CategoryKey(link);
    match FindSlot(acc, category)
    case InheritedValue => None
    case Missing => Some(acc + [Group(category, [link])])
    case OwnArray(i) => Some(acc[i := Group(category, acc[i].links + [link])])
  }

  /** `visible.reduce(...)` from `{}`: it throws exactly when some link's
      category names an inherited property. */
  function ReduceAsWritten(s: seq<Link>): (r: Option<seq<Group>>)
    ensures r.None? <==> exists l :: l in s && CategoryKey(l) in InheritedNames
  {
    if s == [] then Some([])
    else
      var init, last := s[..|s| - 1], s[|s| - 1];
      assert s == init + [last];
      assert forall l :: l in s <==> l in init || l == last;
      match ReduceAsWritten(init)
      case None => None
      case Some(acc) => PushAsWritten(acc, last)
  }

  /** The reduce as written throws on a single link whose category is
      "constructor" (or any other inherited name), so the vault cannot render. */
  lemma ReduceAsWrittenThrows(l: Link)
    requires l.category == Some("constructor")
    ensures ReduceAsWritten([l]).None?
  {
    assert [l][..0] == [];
  }

  /** A link of a new category opens a group at the end. */
  lemma GroupedSnocNew(s: seq<Link>, x: Link)
    requires CategoryKey(x) !in Categories(s)
    ensures Grouped(s + [x]) == Grouped(s) + [Group(CategoryKey(x), [x])]
  {
    GroupingSnoc(s, x);
    var key := CategoryKey(x);
    var g, acc := Grouped(s + [x]), Grouped(s);
    assert |g| == |acc| + 1;
    forall i | 0 <= i < |acc| ensures g[i] == acc[i] {
      assert Categories(s)[i] != key;
    }
    CategoriesMembers(s, key);
  }

  /** A link of a known category joins the end of that category's group. */
  lemma GroupedSnocOld(s: seq<Link>, x: Link, j: nat)
    requires j < |Categories(s)| && Categories(s)[j] == CategoryKey(x)
    ensures Grouped(s + [x]) == Grouped(s)[j := Group(CategoryKey(x), Grouped(s)[j].links + [x])]
  {
    GroupingSnoc(s, x);
    var key := CategoryKey(x);
    var g, acc := Grouped(s + [x]), Grouped(s);
    forall i | 0 <= i < |acc| && i != j ensures g[i] == acc[i] {
      assert Categories(s)[i] != key;
    }
  }

  /** On every other input the reduce as written computes `Grouped`. */
  lemma {:induction false} ReduceAsWrittenAgrees(s: seq<Link>)
    requires forall l :: l in s ==> CategoryKey(l) !in InheritedNames
    ensures ReduceAsWritten(s) == Some(Grouped(s))
  {
    if s != [] {
      var init, last := s[..|s| - 1], s[|s| - 1];
      assert s == init + [last];
      assert forall l :: l in init ==> l in s;
      ReduceAsWrittenAgrees(init);
      var acc := Grouped(init);
      match FindSlot(acc, CategoryKey(last))
      case Missing =>
        assert CategoryKey(last) !in Categories(init);
        GroupedSnocNew(init, last);
      case OwnArray(j) =>
        GroupedSnocOld(init, last, j);
    }
  }

  // ---------------------------------------------------------------------
  // Category order

  const CategoryOrder: seq<string> := ["UI Library", "Inspiration", "General", "Article"]

  /** `s.indexOf(x)`: the first position of `x`, or -1. */
  function IndexOf(s: seq<string>, x: string): (r: int)
    ensures -1 <= r < |s|
    ensures r == -1 <==> x !in s
    ensures r >= 0 ==> s[r] == x && x !in s[..r]
  {
    if s == [] then -1
    else if s[0] == x then 0
    else
      var r := IndexOf(s[1..], x);
      assert s == [s[0]] + s[1..];
      if r == -1 then -1
      else
        assert s[..r + 1] == [s[0]] + s[1..][..r];
        r + 1
  }

  /** `categoryOrder.indexOf(c)`, spelled out over the four entries. */
  function Rank(c: string): int {
    if c == "UI Library" then 0
    else if c == "Inspiration" then 1
    else if c == "General" then 2
    else if c == "Article" then 3
    else -1
  }

  lemma RankIsIndexOf(c: string)
    ensures Rank(c) == IndexOf(CategoryOrder, c)
  {
    assert CategoryOrder[1..][1..][1..][1..] == [];
  }

  /** The comparator handed to `sort`: 0 only for equal categories, and a
      listed category before an unlisted one. */
  function CompareCategories(a: string, b: string): (r: int)
    ensures r == 0 <==> a == b
    ensures Rank(a) != -1 && Rank(b) == -1 ==> r < 0
    ensures Rank(a) == -1 && Rank(b) != -1 ==> r > 0
  {
    var indexA := Rank(a);
    var indexB := Rank(b);
    if indexA != -1 && indexB != -1 then indexA - indexB
    else if indexA != -1 then -1
    else if indexB != -1 then 1
    else Compare(a, b)
  }

  /** The comparator orders listed categories by their place in the list,
      puts every listed category before every unlisted one, orders unlisted
      ones by string comparison, and returns 0 only for equal strings. */
  lemma CompareCategoriesMeaning(a: string, b: string)
    ensures a in CategoryOrder && b in CategoryOrder ==>
              (CompareCategories(a, b) < 0 <==> IndexOf(CategoryOrder, a) < IndexOf(CategoryOrder, b))
    ensures a in CategoryOrder && b !in CategoryOrder ==> CompareCategories(a, b) < 0
    ensures a !in CategoryOrder && b !in CategoryOrder ==> CompareCategories(a, b) == Compare(a, b)
    ensures CompareCategories(a, b) == 0 <==> a == b
  {
    RankIsIndexOf(a);
    RankIsIndexOf(b);
    var ia, ib := IndexOf(CategoryOrder, a), IndexOf(CategoryOrder, b);
    if ia != -1 && ib != -1 && ia == ib {
      assert a == CategoryOrder[ia] == b;
    }
  }

  lemma CompareCategoriesReflexive(a: string)
    ensures CompareCategories(a, a) == 0
  {
    CompareCategoriesMeaning(a, a);
  }

  /** Swapping the arguments flips the sign. */
  lemma CompareCategoriesAntisymmetric(a: string, b: string)
    ensures CompareCategories(a, b) < 0 <==> CompareCategories(b, a) > 0
  {
    CompareAntisymmetric(a, b);
  }

  lemma CompareCategoriesTransitive(a: string, b: string, c: string)
    requires CompareCategories(a, b) <= 0 && CompareCategories(b, c) <= 0
    ensures CompareCategories(a, c) <= 0
  {
    CompareCategoriesMeaning(a, b);
    CompareCategoriesMeaning(b, c);
    CompareCategoriesMeaning(a, c);
    if a != b && b != c && Rank(a) == -1 && Rank(b) == -1 && Rank(c) == -1 {
      CompareTransitive(a, b, c);
    }
  }

  /** The fixed list reads "UI Library", "Inspiration", "General", "Article",
      and an unlisted category such as "Tool" follows all of them. */
  lemma FixedOrder()
    ensures CompareCategories("UI Library", "Inspiration") < 0
    ensures CompareCategories("Inspiration", "General") < 0
    ensures CompareCategories("General", "Article") < 0
    ensures forall c :: c in CategoryOrder ==> CompareCategories(c, "Tool") < 0
  {
    forall c | c in CategoryOrder ensures CompareCategories(c, "Tool") < 0 {
      RankIsIndexOf(c);
      RankIsIndexOf("Tool");
    }
  }

  /** The comparator on groups, as the sort's callback sees it. */
  function GroupBefore(a: Group, b: Group): bool {
    CompareCategories(a.category, b.category) <= 0
  }

  lemma GroupBeforeTotal()
    ensures Total(GroupBefore)
  {
    forall a: Group, b: Group ensures GroupBefore(a, b) || GroupBefore(b, a) {
      CompareCategoriesAntisymmetric(a.category, b.category);
    }
  }

  lemma GroupBeforeTransitive(a: Group, b: Group, c: Group)
    requires GroupBefore(a, b) && GroupBefore(b, c)
    ensures GroupBefore(a, c)
  {
    CompareCategoriesTransitive(a.category, b.category, c.category);
  }

  /** In a sorted list every earlier category compares no later than every
      later one. */
  lemma {:induction false} SortedAllPairs(g: seq<Group>, i: nat, j: nat)
    requires SortedBy(g, GroupBefore) && i <= j < |g|
    ensures GroupBefore(g[i], g[j])
    decreases j - i
  {
    if i < j {
      SortedAllPairs(g, i + 1, j);
      assert InOrderAt(g, GroupBefore, i);
      GroupBeforeTransitive(g[i], g[i + 1], g[j]);
    } else {
      CompareCategoriesReflexive(g[i].category);
    }
  }

  /** `Object.entries(groupedLinks).sort(compare)`: the same groups, each
      one's category comparing no later than the next one's. */
  function SortCategories(g: seq<Group>): (r: seq<Group>)
    ensures SortedBy(r, GroupBefore)
    ensures multiset(r) == multiset(g)
  {
    GroupBeforeTotal();
    SortBy(g, GroupBefore)
  }

  /** No two groups of `m` share a category. */
  ghost predicate OnePerCategory(m: multiset<Group>) {
    forall x, y :: x in m && y in m && x.category == y.category ==> x == y
  }

  /** Both sorted lists start with the same group. */
  lemma SameHead(a: seq<Group>, b: seq<Group>)
    requires SortedBy(a, GroupBefore) && SortedBy(b, GroupBefore)
    requires a != [] && multiset(a) == multiset(b)
    requires OnePerCategory(multiset(a))
    ensures b != [] && a[0] == b[0]
  {
    assert a[0] in multiset(b);
    assert b != [];
    assert b[0] in multiset(a);
    var i :| 0 <= i < |a| && a[i] == b[0];
    var j :| 0 <= j < |b| && b[j] == a[0];
    SortedAllPairs(a, 0, i);
    SortedAllPairs(b, 0, j);
    CompareCategoriesAntisymmetric(a[0].category, b[0].category);
    CompareCategoriesMeaning(a[0].category, b[0].category);
  }

  lemma OnePerCategoryTail(a: seq<Group>)
    requires a != [] && OnePerCategory(multiset(a))
    ensures OnePerCategory(multiset(a[1..]))
  {
    assert a == [a[0]] + a[1..];
    assert forall x :: x in multiset(a[1..]) ==> x in multiset(a);
  }

  lemma {:induction false} SortedUnique(a: seq<Group>, b: seq<Group>)
    requires SortedBy(a, GroupBefore) && SortedBy(b, GroupBefore)
    requires multiset(a) == multiset(b)
    requires OnePerCategory(multiset(a))
    ensures a == b
  {
    if a == [] {
      assert |multiset(b)| == 0;
    } else {
      SameHead(a, b);
      SameTail(a, b);
      SortedTail(a, GroupBefore);
      SortedTail(b, GroupBefore);
      OnePerCategoryTail(a);
      SortedUnique(a[1..], b[1..]);
      assert a == [a[0]] + a[1..] && b == [b[0]] + b[1..];
    }
  }

  /** The sections do not depend on the order in which `Object.entries`
      lists the groups: any reordering of them sorts to the same list. */
  lemma EntryOrderIrrelevant(s: seq<Link>, h: seq<Group>)
    requires multiset(h) == multiset(Grouped(s))
    ensures SortCategories(h) == SortCategories(Grouped(s))
  {
    var g := Grouped(s);
    GroupedPartition(s);
    assert OnePerCategory(multiset(g)) by {
      forall x: Group, y: Group | x in multiset(g) && y in multiset(g) && x.category == y.category
        ensures x == y
      {
        var i :| 0 <= i < |g| && g[i] == x;
        var j :| 0 <= j < |g| && g[j] == y;
        assert i == j;
      }
    }
    SortedUnique(SortCategories(h), SortCategories(g));
  }
}
