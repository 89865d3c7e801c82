/**
 The news page: the category buttons built from the items, and the list
 shown for a search term and an active category.
 */
module News {
  import opened Text

  datatype NewsItem = NewsItem(
    id: int,
    title: string,
    summary: string,
    content: string,
    image: string,
    date: string,
    category: string,
    author: string
  )

  /** The button that shows every category; also the initial active category. */
  const AllCategory := "all"

  // ---------------------------------------------------------------------------
  // The category list

  /** The position of the first `x` in `xs`. */
  function FirstIndexOf(xs: seq<string>, x: string): (k: nat)
    requires x in xs
    ensures k < |xs| && xs[k] == x && x !in xs[..k]
  {
    if xs[0] == x then 0
    else
      assert xs[1..][..FirstIndexOf(xs[1..], x)] == xs[1..1 + FirstIndexOf(xs[1..], x)];
      1 + FirstIndexOf(xs[1..], x)
  }

  lemma FirstIndexOfUnique(xs: seq<string>, x: string, k: nat)
    requires k < |xs| && xs[k] == x && x !in xs[..k]
    ensures FirstIndexOf(xs, x) == k
  {
    var j := FirstIndexOf(xs, x);
    assert forall m :: 0 <= m < k ==> xs[..k][m] == xs[m];
    assert forall m :: 0 <= m < j ==> xs[..j][m] == xs[m];
  }

  /** A prefix finds its elements where the whole sequence does. */
  lemma FirstIndexOfPrefix(xs: seq<string>, n: nat, x: string)
    requires n <= |xs| && x in xs[..n]
    ensures FirstIndexOf(xs[..n], x) == FirstIndexOf(xs, x)
  {
    var k := FirstIndexOf(xs[..n], x);
    assert xs[..n][..k] == xs[..k];
    FirstIndexOfUnique(xs, x, k);
  }

  ghost predicate NoDuplicates(s: seq<string>) {
    forall i, j :: 0 <= i < j < |s| ==> s[i] != s[j]
  }

  /**
   `Array.from(new Set(xs))`: each distinct element once, in the order of its
   first occurrence.
   */
  function Distinct(xs: seq<string>): (r: seq<string>)
    ensures forall x :: x in r <==> x in xs
    ensures NoDuplicates(r)
    ensures forall i, j :: 0 <= i < j < |r| ==> FirstIndexOf(xs, r[i]) < FirstIndexOf(xs, r[j])
  {
    if xs == [] then []
    else
      var init, x := xs[..|xs| - 1], xs[|xs| - 1];
      var d := Distinct(init);
      assert forall i :: 0 <= i < |d| ==> d[i] in init;
      forall y | y in init
        ensures FirstIndexOf(init, y) == FirstIndexOf(xs, y)
      {
        assert init == xs[..|xs| - 1];
        FirstIndexOfPrefix(xs, |xs| - 1, y);
      }
      if x in d then d
      else
        assert x !in xs[..|xs| - 1];
        FirstIndexOfUnique(xs, x, |xs| - 1);
        d + [x]
  }

  function CategoriesOf(items: seq<NewsItem>): (r: seq<string>)
    ensures |r| == |items|
    ensures forall i :: 0 <= i < |items| ==> r[i] == items[i].category
  {
    seq(|items|, i requires 0 <= i < |items| => items[i].category)
  }

  /**
   The category buttons: `"all"` first, then every category of the items once,
   in the order the items first use it.
   */
  function Categories(items: seq<NewsItem>): (r: seq<string>)
    ensures |r| >= 1 && r[0] == AllCategory
    ensures forall c :: c in r[1..] <==> exists i :: 0 <= i < |items| && items[i].category == c
    ensures NoDuplicates(r[1..])
    ensures forall i :: 1 <= i < |r| ==> r[i] in CategoriesOf(items)
    ensures forall i, j :: 1 <= i < j < |r| ==>
              FirstIndexOf(CategoriesOf(items), r[i]) < FirstIndexOf(CategoriesOf(items), r[j])
  {
    var cs := CategoriesOf(items);
    var d := Distinct(cs);
    assert forall c :: c in cs <==> exists i :: 0 <= i < |items| && items[i].category == c;
    var r := [AllCategory] + d;
    assert r[1..] == d;
    r
  }

  // ---------------------------------------------------------------------------
  // The filtered list

  /** The lowered term occurs in the lowered title or the lowered summary. */
  predicate MatchesSearch(item: NewsItem, searchTerm: string) {
    Contains(Lower(item.title), Lower(searchTerm)) || Contains(Lower(item.summary), Lower(searchTerm))
  }

  predicate MatchesCategory(item: NewsItem, activeCategory: string) {
    activeCategory == AllCategory || item.category == activeCategory
  }

  predicate Shown(item: NewsItem, searchTerm: string, activeCategory: string) {
    MatchesSearch(item, searchTerm) && MatchesCategory(item, activeCategory)
  }

  /** `a` is `b` with some elements left out and the rest in their order. */
  predicate IsSubsequence(a: seq<NewsItem>, b: seq<NewsItem>)
    decreases |b|
  {
    if a == [] then true
    else if b == [] then false
    else (a[0] == b[0] && IsSubsequence(a[1..], b[1..])) || IsSubsequence(a, b[1..])
  }

  /**
   `newsItems.filter(...)`: the shown items, each as often as in the input and
   in the input's order.
   */
  function FilterNews(items: seq<NewsItem>, searchTerm: string, activeCategory: string): (r: seq<NewsItem>)
    ensures forall x :: x in r <==> x in items && Shown(x, searchTerm, activeCategory)
    ensures forall x :: multiset(r)[x] == if Shown(x, searchTerm, activeCategory) then multiset(items)[x] else 0
    ensures IsSubsequence(r, items)
    ensures activeCategory != AllCategory ==> forall i :: 0 <= i < |r| ==> r[i].category == activeCategory
  {
    if items == [] then []
    else
      var rest := FilterNews(items[1..], searchTerm, activeCategory);
      assert items == [items[0]] + items[1..];
      if Shown(items[0], searchTerm, activeCategory) then
        assert ([items[0]] + rest)[1..] == rest;
        [items[0]] + rest
      else rest
  }

  /** The page as first shown, no term and `"all"`, lists every item. */
  lemma {:induction false} EmptySearchShowsAll(items: seq<NewsItem>)
    ensures FilterNews(items, "", AllCategory) == items
  {
    if items != [] {
      ContainsEmpty(Lower(items[0].title));
      EmptySearchShowsAll(items[1..]);
      assert items == [items[0]] + items[1..];
    }
  }

  /** The search ignores the case of the term. */
  lemma {:induction false} SearchIgnoresTermCase(items: seq<NewsItem>, searchTerm: string, activeCategory: string)
    ensures FilterNews(items, Lower(searchTerm), activeCategory) == FilterNews(items, searchTerm, activeCategory)
  {
    LowerIdempotent(searchTerm);
    if items != [] {
      SearchIgnoresTermCase(items[1..], searchTerm, activeCategory);
    }
  }

  /** With no term, every category button leads to at least one item. */
  lemma EveryCategoryHasItems(items: seq<NewsItem>, c: string)
    requires c in Categories(items)[1..]
    ensures |FilterNews(items, "", c)| > 0
  {
    var i :| 0 <= i < |items| && items[i].category == c;
    ContainsEmpty(Lower(items[i].title));
    assert Shown(items[i], "", c);
    assert items[i] in FilterNews(items, "", c);
  }
}
