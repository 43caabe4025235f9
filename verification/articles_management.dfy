/**
 * The article-list page: the three-part filter with its sort by last update,
 * the publish toggle, the two-click delete, the batch publish / delete over
 * the selection, and the selection toggles.
 *
 * The selection of article ids is a set (its order never matters here); the
 * text shown as an excerpt is extracted from HTML by the DOM, which is not
 * modelled: only its truncation (`Text.Truncate`) is.
 */
module ArticlesManagement {
  import opened BlogTypes
  import opened Seqs
  import opened Text
  import opened BlogStore

  datatype StatusFilter = All | PublishedOnly | DraftsOnly

  /** The search term occurs in the title, the content or the author, ignoring (ASCII) case. */
  predicate MatchesSearch(a: Article, term: string) {
    var t := ToLower(term);
    Contains(ToLower(a.title), t) || Contains(ToLower(a.content), t) || Contains(ToLower(a.author), t)
  }

  /** An empty category filter matches every article, otherwise only an exact id. */
  predicate MatchesCategory(a: Article, category: string) {
    category == [] || a.categoryId == category
  }

  predicate MatchesStatus(a: Article, status: StatusFilter) {
    match status
    case All => true
    case PublishedOnly => a.published
    case DraftsOnly => !a.published
  }

  /** The article is listed: it passes the search, category and status filters. */
  predicate Listed(a: Article, term: string, category: string, status: StatusFilter) {
    MatchesSearch(a, term) && MatchesCategory(a, category) && MatchesStatus(a, status)
  }

  function UpdatedAtOf(a: Article): int {
    a.updatedAt
  }

  /**
   * `filteredArticles`: every listed article, as often as it is stored, and
   * nothing else, most recently updated first.
   */
  function FilteredArticles(arts: seq<Article>, term: string, category: string, status: StatusFilter): (r: seq<Article>)
    ensures SortedDesc(r, UpdatedAtOf)
    ensures forall a :: multiset(r)[a] == if Listed(a, term, category, status) then multiset(arts)[a] else 0
  {
    var listed := Filter(arts, a => Listed(a, term, category, status));
    FilterSpec(arts, a => Listed(a, term, category, status));
    SortDescSorted(listed, UpdatedAtOf);
    SortDesc(listed, UpdatedAtOf)
  }

  /** With no search term, no category and status `all`, every article is listed. */
  lemma NoFilterListsAll(arts: seq<Article>)
    ensures multiset(FilteredArticles(arts, [], [], All)) == multiset(arts)
  {
    forall a: Article ensures Listed(a, [], [], All) {
      ContainsEmpty(ToLower(a.title));
    }
  }

  /** An article passes `all` iff it passes exactly one of `published` and `draft`. */
  lemma ListedSplit(a: Article, term: string, category: string)
    ensures Listed(a, term, category, All) <==>
            Listed(a, term, category, PublishedOnly) || Listed(a, term, category, DraftsOnly)
    ensures !(Listed(a, term, category, PublishedOnly) && Listed(a, term, category, DraftsOnly))
  {
  }

  /** The two status filters split the articles that pass the other two filters. */
  lemma StatusFiltersPartition(arts: seq<Article>, term: string, category: string)
    ensures |FilteredArticles(arts, term, category, PublishedOnly)| +
            |FilteredArticles(arts, term, category, DraftsOnly)| ==
            |FilteredArticles(arts, term, category, All)|
  {
    var p := FilteredArticles(arts, term, category, PublishedOnly);
    var d := FilteredArticles(arts, term, category, DraftsOnly);
    var all := FilteredArticles(arts, term, category, All);
    forall a ensures (multiset(p) + multiset(d))[a] == multiset(all)[a] {
      ListedSplit(a, term, category);
    }
    assert multiset(p) + multiset(d) == multiset(all);
    assert |multiset(p)| == |p| && |multiset(d)| == |d| && |multiset(all)| == |all|;
  }

  /** `articles` with `published` set to `p` for every id in `ids`, each touched entry stamped `now`. */
  function PublishedAs(arts: seq<Article>, ids: set<string>, p: bool, now: Timestamp): (r: seq<Article>)
    ensures |r| == |arts|
  {
    seq(|arts|, k requires 0 <= k < |arts| =>
      if arts[k].id in ids then arts[k].(published := p, updatedAt := now) else arts[k])
  }

  /** One more `updateArticle(id, { published })` extends the set of updated ids. */
  lemma PublishedAsStep(arts: seq<Article>, done: set<string>, id: string, p: bool, now: Timestamp)
    ensures UpdatedArticles(PublishedAs(arts, done, p, now), id, PublishedPatch(p), now) ==
            PublishedAs(arts, done + {id}, p, now)
  {
    var x := PublishedAs(arts, done, p, now);
    UpdatedArticlesSpec(x, id, PublishedPatch(p), now);
  }

  /**
   * Batch publishing sets the status of exactly the selected articles (every
   * article carrying a selected id) and leaves the others untouched.
   */
  lemma PublishedAsSpec(arts: seq<Article>, ids: set<string>, p: bool, now: Timestamp)
    ensures var r := PublishedAs(arts, ids, p, now);
      && (forall k :: 0 <= k < |arts| && arts[k].id in ids ==> r[k].published == p && r[k].updatedAt == now)
      && (forall k :: 0 <= k < |arts| && arts[k].id !in ids ==> r[k] == arts[k])
      && (forall k :: 0 <= k < |arts| ==> r[k].id == arts[k].id && r[k].tags == arts[k].tags)
      && PublishedAs(r, ids, p, now) == r
  {
  }

  /** The articles whose id is not in `ids`, in order. */
  function WithoutIds(arts: seq<Article>, ids: set<string>): (r: seq<Article>)
    ensures IsSubseq(r, arts)
    ensures forall a :: multiset(r)[a] == if a.id !in ids then multiset(arts)[a] else 0
  {
    FilterSpec(arts, Unselected(ids));
    Filter(arts, Unselected(ids))
  }

  /** The test that keeps an article whose id is not among `ids`. */
  function Unselected(ids: set<string>): Article -> bool {
    (a: Article) => a.id !in ids
  }

  lemma {:induction false} WithoutNoIds(arts: seq<Article>)
    ensures WithoutIds(arts, {}) == arts
    decreases |arts|
  {
    if |arts| > 0 {
      WithoutNoIds(arts[1..]);
      assert arts == [arts[0]] + arts[1..];
    }
  }

  /** One more `deleteArticle(id)` extends the set of deleted ids. */
  lemma WithoutIdsStep(arts: seq<Article>, done: set<string>, id: string)
    ensures ArticlesWithout(WithoutIds(arts, done), id) == WithoutIds(arts, done + {id})
  {
    FilterFilter(arts, Unselected(done), KeepsArticle(id), Unselected(done + {id}));
  }

  /** The ids of a list of articles, as a set. */
  function IdSet(arts: seq<Article>): (r: set<string>)
    ensures forall id :: id in r <==> exists k :: 0 <= k < |arts| && arts[k].id == id
  {
    set k | 0 <= k < |arts| :: arts[k].id
  }

  /**
   * `togglePublishStatus`: the first article with the id decides the new
   * status (its negation), which `updateArticle` writes to every article
   * with that id; an unknown id changes nothing.
   */
  method TogglePublishStatus(store: Store, articleId: string, now: Timestamp)
    modifies store
    ensures match FindArticle(old(store.articles), articleId)
      case None => store.articles == old(store.articles)
      case Some(k) =>
        store.articles == UpdatedArticles(old(store.articles), articleId, PublishedPatch(!old(store.articles)[k].published), now)
    ensures store.categories == old(store.categories)
  {
    match FindArticle(store.articles, articleId) {
      case None =>
      case Some(k) =>
        store.UpdateArticle(articleId, PublishedPatch(!store.articles[k].published), now);
    }
  }

  /** With unique ids the toggle flips exactly one article's status. */
  lemma TogglePublishFlipsOne(arts: seq<Article>, k: nat, now: Timestamp)
    requires UniqueArticleIds(arts) && k < |arts|
    ensures var r := UpdatedArticles(arts, arts[k].id, PublishedPatch(!arts[k].published), now);
      && r[k].published == !arts[k].published && r[k].updatedAt == now
      && r[k] == arts[k].(published := !arts[k].published, updatedAt := now)
      && (forall j :: 0 <= j < |arts| && j != k ==> r[j] == arts[j])
  {
    UpdatedArticlesSpec(arts, arts[k].id, PublishedPatch(!arts[k].published), now);
  }

  class ArticlesPage {
    var searchTerm: string
    var selectedCategory: string
    var statusFilter: StatusFilter
    var selected: set<string>
    var deleteConfirm: string

    constructor ()
      ensures searchTerm == [] && selectedCategory == [] && statusFilter == All
      ensures selected == {} && deleteConfirm == []
    {
      searchTerm := [];
      selectedCategory := [];
      statusFilter := All;
      selected := {};
      deleteConfirm := [];
    }

    /** The list shown for the current filters. */
    function Shown(arts: seq<Article>): seq<Article>
      reads this
    {
      FilteredArticles(arts, searchTerm, selectedCategory, statusFilter)
    }

    /**
     * `handleDelete`: a click on an id other than the armed one arms it; a
     * click on the armed id deletes the article, disarms, and deselects it.
     */
    method HandleDelete(store: Store, articleId: string)
      modifies this, store
      ensures old(deleteConfirm) != articleId ==>
        deleteConfirm == articleId && selected == old(selected) && store.articles == old(store.articles)
      ensures old(deleteConfirm) == articleId ==>
        && deleteConfirm == [] && selected == old(selected) - {articleId}
        && store.articles == ArticlesWithout(old(store.articles), articleId)
      ensures store.categories == old(store.categories)
      ensures searchTerm == old(searchTerm) && selectedCategory == old(selectedCategory)
      ensures statusFilter == old(statusFilter)
    {
      if deleteConfirm != articleId {
        deleteConfirm := articleId;
        return;
      }
      store.DeleteArticle(articleId);
      deleteConfirm := [];
      selected := selected - {articleId};
    }

    /**
     * `handleBatchPublish`: every selected article gets the status (and a
     * fresh `updatedAt`); then the selection is emptied.
     */
    method BatchPublish(store: Store, published: bool, now: Timestamp)
      modifies this, store
      ensures store.articles == PublishedAs(old(store.articles), old(selected), published, now)
      ensures selected == {}
      ensures store.categories == old(store.categories)
      ensures deleteConfirm == old(deleteConfirm) && searchTerm == old(searchTerm)
      ensures selectedCategory == old(selectedCategory) && statusFilter == old(statusFilter)
    {
      var remaining := selected;
      ghost var original := store.articles;
      assert PublishedAs(original, {}, published, now) == original;
      assert selected - remaining == {};
      while remaining != {}
        modifies store
        invariant remaining <= selected
        invariant store.articles == PublishedAs(original, selected - remaining, published, now)
        invariant store.categories == old(store.categories)
        decreases remaining
      {
        var id :| id in remaining;
        ghost var done := selected - remaining;
        PublishedAsStep(original, done, id, published, now);
        store.UpdateArticle(id, PublishedPatch(published), now);
        remaining := remaining - {id};
        assert selected - remaining == done + {id};
      }
      selected := {};
    }

    /**
     * `handleBatchDelete`: when confirmed, every selected article is deleted
     * and the selection emptied; otherwise nothing changes.
     */
    method BatchDelete(store: Store, confirmed: bool)
      modifies this, store
      ensures !confirmed ==> store.articles == old(store.articles) && selected == old(selected)
      ensures confirmed ==> store.articles == WithoutIds(old(store.articles), old(selected)) && selected == {}
      ensures store.categories == old(store.categories)
      ensures deleteConfirm == old(deleteConfirm) && searchTerm == old(searchTerm)
      ensures selectedCategory == old(selectedCategory) && statusFilter == old(statusFilter)
    {
      if !confirmed {
        return;
      }
      var ids := selected;
      var remaining := ids;
      ghost var original := store.articles;
      WithoutNoIds(original);
      assert ids - remaining == {};
      while remaining != {}
        modifies store
        invariant remaining <= ids
        invariant store.articles == WithoutIds(original, ids - remaining)
        invariant store.categories == old(store.categories)
        decreases remaining
      {
        var id :| id in remaining;
        ghost var done := ids - remaining;
        WithoutIdsStep(original, done, id);
        store.DeleteArticle(id);
        remaining := remaining - {id};
        assert ids - remaining == done + {id};
      }
      assert ids - remaining == ids;
      selected := {};
    }

    /**
     * `toggleSelectAll`: clears the selection when it is as large as the
     * shown list, otherwise selects exactly the shown ids.
     */
    method ToggleSelectAll(store: Store)
      modifies this
      ensures |old(selected)| == |Shown(store.articles)| ==> selected == {}
      ensures |old(selected)| != |Shown(store.articles)| ==> selected == IdSet(Shown(store.articles))
      ensures deleteConfirm == old(deleteConfirm) && searchTerm == old(searchTerm)
      ensures selectedCategory == old(selectedCategory) && statusFilter == old(statusFilter)
    {
      var shown := FilteredArticles(store.articles, searchTerm, selectedCategory, statusFilter);
      if |selected| == |shown| {
        selected := {};
      } else {
        selected := IdSet(shown);
      }
    }

    /** `toggleSelectArticle` */
    method ToggleSelectArticle(articleId: string)
      modifies this
      ensures selected == SetToggled(old(selected), articleId)
      ensures deleteConfirm == old(deleteConfirm) && searchTerm == old(searchTerm)
      ensures selectedCategory == old(selectedCategory) && statusFilter == old(statusFilter)
    {
      selected := SetToggled(selected, articleId);
    }
  }
}
