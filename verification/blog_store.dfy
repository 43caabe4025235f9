/**
 * The blog data store of `useBlogData`: the category and article lists, the
 * create / update / delete operations that replace them, the published-article
 * queries, the tag index, and the load / persist guards against the two
 * storage slots.
 *
 * Fresh ids (`Date.now()`) and clock readings are parameters; storage holds
 * already-parsed lists (the JSON text is not modelled).
 */
module BlogStore {
  import opened BlogTypes
  import opened Seqs
  import opened Text
  import opened TagCounting

  /** The list loaded from a slot: its content when present, else the seed list. */
  function Loaded<T>(slot: Option<seq<T>>, defaults: seq<T>): seq<T> {
    match slot
    case Some(saved) => saved
    case None => defaults
  }

  /** The slot after the persist effect ran on `current`: only a non-empty list is written. */
  function Persisted<T>(slot: Option<seq<T>>, current: seq<T>): Option<seq<T>> {
    if |current| > 0 then Some(current) else slot
  }

  /** Reloading after a non-empty write yields the written list; an empty list never overwrites a slot. */
  lemma PersistThenLoad<T>(slot: Option<seq<T>>, current: seq<T>, defaults: seq<T>)
    ensures |current| > 0 ==> Loaded(Persisted(slot, current), defaults) == current
    ensures |current| == 0 ==> Persisted(slot, current) == slot
  {
  }

  /** `prev.map(cat => cat.id === id ? { ...cat, ...updates } : cat)` */
  function UpdatedCategories(cats: seq<Category>, id: string, patch: CategoryPatch): (r: seq<Category>)
    ensures |r| == |cats|
  {
    seq(|cats|, k requires 0 <= k < |cats| =>
      if cats[k].id == id then MergeCategory(cats[k], patch) else cats[k])
  }

  /**
   * `prev.map(article => article.id === id ? { ...article, ...updates,
   * updatedAt: now } : article)`
   */
  function UpdatedArticles(arts: seq<Article>, id: string, patch: ArticlePatch, now: Timestamp): (r: seq<Article>)
    ensures |r| == |arts|
  {
    seq(|arts|, k requires 0 <= k < |arts| =>
      if arts[k].id == id then MergeArticle(arts[k], patch).(updatedAt := now) else arts[k])
  }

  /**
   * Updating a category: the list keeps its length and order, entries with
   * another id are untouched, entries with the id get exactly the fields the
   * update names, and an unknown id changes nothing.
   */
  lemma UpdatedCategoriesSpec(cats: seq<Category>, id: string, patch: CategoryPatch)
    ensures var r := UpdatedCategories(cats, id, patch);
      && (forall k :: 0 <= k < |cats| && cats[k].id != id ==> r[k] == cats[k])
      && (forall k :: 0 <= k < |cats| && cats[k].id == id ==>
            && r[k].id == Pick(patch.id, cats[k].id)
            && r[k].name == Pick(patch.name, cats[k].name)
            && r[k].description == Pick(patch.description, cats[k].description)
            && r[k].color == Pick(patch.color, cats[k].color)
            && r[k].parentId == Pick(patch.parentId, cats[k].parentId)
            && r[k].order == Pick(patch.order, cats[k].order)
            && r[k].createdAt == Pick(patch.createdAt, cats[k].createdAt)
            && (patch == NoCategoryChange ==> r[k] == cats[k]))
      && ((forall k :: 0 <= k < |cats| ==> cats[k].id != id) ==> r == cats)
  {
  }

  /**
   * Updating an article: entries with another id are untouched; an entry with
   * the id gets the fields the update names, and its `updatedAt` becomes the
   * clock reading even when the update names an `updatedAt` of its own. With
   * an empty update only `updatedAt` changes; an unknown id changes nothing.
   */
  lemma UpdatedArticlesSpec(arts: seq<Article>, id: string, patch: ArticlePatch, now: Timestamp)
    ensures var r := UpdatedArticles(arts, id, patch, now);
      && (forall k :: 0 <= k < |arts| && arts[k].id != id ==> r[k] == arts[k])
      && (forall k :: 0 <= k < |arts| && arts[k].id == id ==>
            && r[k].updatedAt == now
            && r[k].id == Pick(patch.id, arts[k].id)
            && r[k].title == Pick(patch.title, arts[k].title)
            && r[k].content == Pick(patch.content, arts[k].content)
            && r[k].excerpt == Pick(patch.excerpt, arts[k].excerpt)
            && r[k].categoryId == Pick(patch.categoryId, arts[k].categoryId)
            && r[k].tags == Pick(patch.tags, arts[k].tags)
            && r[k].author == Pick(patch.author, arts[k].author)
            && r[k].createdAt == Pick(patch.createdAt, arts[k].createdAt)
            && r[k].imageUrl == Pick(patch.imageUrl, arts[k].imageUrl)
            && r[k].published == Pick(patch.published, arts[k].published))
      && (patch == NoArticleChange ==>
            forall k :: 0 <= k < |arts| && arts[k].id == id ==> r[k] == arts[k].(updatedAt := now))
      && ((forall k :: 0 <= k < |arts| ==> arts[k].id != id) ==> r == arts)
  {
  }

  /** The test of `cat.id !== id`, as a function value (one term wherever it is named). */
  function KeepsCategory(id: string): Category -> bool {
    (c: Category) => c.id != id
  }

  /** The test of `article.categoryId !== id`. */
  function OutsideCategory(categoryId: string): Article -> bool {
    (a: Article) => a.categoryId != categoryId
  }

  /** The test of `article.categoryId === id`. */
  function InCategory(categoryId: string): Article -> bool {
    (a: Article) => a.categoryId == categoryId
  }

  /** The test of `article.id !== id`. */
  function KeepsArticle(id: string): Article -> bool {
    (a: Article) => a.id != id
  }

  /**
   * `prev.filter(cat => cat.id !== id)`: every category with the id is gone,
   * every other one is kept, in order.
   */
  function CategoriesWithout(cats: seq<Category>, id: string): (r: seq<Category>)
    ensures IsSubseq(r, cats)
    ensures forall c :: multiset(r)[c] == if c.id != id then multiset(cats)[c] else 0
  {
    FilterSpec(cats, KeepsCategory(id));
    Filter(cats, KeepsCategory(id))
  }

  /**
   * `prev.filter(article => article.categoryId !== id)`: the articles filed
   * directly under the category are gone, every other one is kept, in order.
   */
  function ArticlesOutside(arts: seq<Article>, categoryId: string): (r: seq<Article>)
    ensures IsSubseq(r, arts)
    ensures forall a :: multiset(r)[a] == if a.categoryId != categoryId then multiset(arts)[a] else 0
  {
    FilterSpec(arts, OutsideCategory(categoryId));
    Filter(arts, OutsideCategory(categoryId))
  }

  /**
   * `prev.filter(article => article.id !== id)`: exactly the articles with a
   * different id remain, in order.
   */
  function ArticlesWithout(arts: seq<Article>, id: string): (r: seq<Article>)
    ensures IsSubseq(r, arts)
    ensures forall a :: multiset(r)[a] == if a.id != id then multiset(arts)[a] else 0
  {
    FilterSpec(arts, KeepsArticle(id));
    Filter(arts, KeepsArticle(id))
  }

  /** The dictionary `getAllTags` builds: each name mapped to its number of entries. */
  function CountMap(ts: seq<string>): map<string, nat> {
    if |ts| == 0 then map[]
    else
      var m := CountMap(ts[..|ts| - 1]);
      var t := ts[|ts| - 1];
      m[t := if t in m then m[t] + 1 else 1]
  }

  /** The dictionary has a key per listed name, holding its multiplicity. */
  lemma {:induction false} CountMapSpec(ts: seq<string>)
    ensures forall t :: t in CountMap(ts) <==> t in ts
    ensures forall t :: t in CountMap(ts) ==> CountMap(ts)[t] == multiset(ts)[t]
    decreases |ts|
  {
    if |ts| > 0 {
      var init := ts[..|ts| - 1];
      assert ts == init + [ts[|ts| - 1]];
      CountMapSpec(init);
    }
  }

  /** One more entry: the dictionary bumps or adds its key, the name list grows iff the name is new. */
  lemma CountStep(seen: seq<string>, t: string)
    ensures t in CountMap(seen) <==> t in seen
    ensures CountMap(seen + [t]) ==
            (var m := CountMap(seen); m[t := if t in m then m[t] + 1 else 1])
    ensures Distinct(seen + [t]) == if t in seen then Distinct(seen) else Distinct(seen) + [t]
  {
    CountMapSpec(seen);
    assert (seen + [t])[..|seen|] == seen;
  }

  /** The inner loop of `getAllTags`: counts the entries of one tag list. */
  method CountTags(tags: seq<string>, names: seq<string>, counts: map<string, nat>, ghost seen: seq<string>)
    returns (names': seq<string>, counts': map<string, nat>)
    requires names == Distinct(seen) && counts == CountMap(seen)
    ensures names' == Distinct(seen + tags) && counts' == CountMap(seen + tags)
  {
    names', counts' := names, counts;
    assert seen + tags[..0] == seen;
    for j := 0 to |tags|
      invariant names' == Distinct(seen + tags[..j]) && counts' == CountMap(seen + tags[..j])
    {
      var t := tags[j];
      CountStep(seen + tags[..j], t);
      if t in counts' {
        counts' := counts'[t := counts'[t] + 1];
      } else {
        counts' := counts'[t := 1];
        names' := names' + [t];
      }
      assert seen + tags[..j + 1] == (seen + tags[..j]) + [t];
    }
    assert tags[..|tags|] == tags;
  }

  /** The tag entries for the counted names, in order. */
  function TallyTags(names: seq<string>, counts: map<string, nat>): seq<Tag>
    requires forall k :: 0 <= k < |names| ==> names[k] in counts
  {
    seq(|names|, k requires 0 <= k < |names| => Tag(Slug(names[k]), names[k], counts[names[k]]))
  }

  /** Counting all published entries lists exactly the tag index. */
  lemma TallyIsIndex(arts: seq<Article>)
    ensures var ts := PublishedTagEntries(arts);
      && (forall k :: 0 <= k < |Distinct(ts)| ==> Distinct(ts)[k] in CountMap(ts))
      && TallyTags(Distinct(ts), CountMap(ts)) == TagIndex(arts)
  {
    CountMapSpec(PublishedTagEntries(arts));
  }

  /** The published entries of one more article follow those of the ones before it. */
  lemma PublishedTagEntriesStep(arts: seq<Article>, i: nat)
    requires i < |arts|
    ensures PublishedTagEntries(arts[..i + 1]) ==
            PublishedTagEntries(arts[..i]) + (if arts[i].published then arts[i].tags else [])
  {
    assert arts[..i + 1][..i] == arts[..i];
  }

  /** Durable storage: one slot per collection; `None` is a missing or empty entry. */
  class Storage {
    var categorySlot: Option<seq<Category>>
    var articleSlot: Option<seq<Article>>

    constructor (categorySlot: Option<seq<Category>>, articleSlot: Option<seq<Article>>)
      ensures this.categorySlot == categorySlot && this.articleSlot == articleSlot
    {
      this.categorySlot := categorySlot;
      this.articleSlot := articleSlot;
    }
  }

  /** The state held by the `useBlogData` hook. */
  class Store {
    var categories: seq<Category>
    var articles: seq<Article>

    /** Both lists start empty, before the load effect runs. */
    constructor ()
      ensures categories == [] && articles == []
    {
      categories := [];
      articles := [];
    }

    /**
     * The mount effect: each list comes from its slot if present, else from
     * the seed list (the hook passes `DefaultCategories()` and
     * `DefaultArticles()`).
     */
    method Load(storage: Storage, seedCategories: seq<Category>, seedArticles: seq<Article>)
      modifies this
      ensures categories == Loaded(storage.categorySlot, seedCategories)
      ensures articles == Loaded(storage.articleSlot, seedArticles)
    {
      categories := Loaded(storage.categorySlot, seedCategories);
      articles := Loaded(storage.articleSlot, seedArticles);
    }

    /** The category persist effect: writes the list only when it is non-empty. */
    method PersistCategories(storage: Storage)
      modifies storage
      ensures storage.categorySlot == Persisted(old(storage.categorySlot), categories)
      ensures storage.articleSlot == old(storage.articleSlot)
    {
      if |categories| > 0 {
        storage.categorySlot := Some(categories);
      }
    }

    /** The article persist effect: writes the list only when it is non-empty. */
    method PersistArticles(storage: Storage)
      modifies storage
      ensures storage.articleSlot == Persisted(old(storage.articleSlot), articles)
      ensures storage.categorySlot == old(storage.categorySlot)
    {
      if |articles| > 0 {
        storage.articleSlot := Some(articles);
      }
    }

    /** Appends one category carrying the input, the fresh id and the clock reading. */
    method AddCategory(input: CategoryInput, id: string, now: Timestamp) returns (c: Category)
      modifies this
      ensures c == Category(id, input.name, input.description, input.color, input.parentId, input.order, now)
      ensures categories == old(categories) + [c]
      ensures articles == old(articles)
    {
      c := Category(id, input.name, input.description, input.color, input.parentId, input.order, now);
      categories := categories + [c];
    }

    method UpdateCategory(id: string, patch: CategoryPatch)
      modifies this
      ensures categories == UpdatedCategories(old(categories), id, patch)
      ensures articles == old(articles)
    {
      categories := UpdatedCategories(categories, id, patch);
    }

    /**
     * Removes the category and, without any guard, every article filed
     * directly under it (articles of its sub-categories stay).
     */
    method DeleteCategory(id: string)
      modifies this
      ensures categories == CategoriesWithout(old(categories), id)
      ensures articles == ArticlesOutside(old(articles), id)
    {
      categories := CategoriesWithout(categories, id);
      articles := ArticlesOutside(articles, id);
    }

    /**
     * Appends one article carrying the input, the fresh id and two clock
     * readings; the category id is not checked.
     */
    method AddArticle(input: ArticleInput, id: string, createdAt: Timestamp, updatedAt: Timestamp)
      returns (a: Article)
      modifies this
      ensures a == Article(id, input.title, input.content, input.excerpt, input.categoryId, input.tags,
                           input.author, createdAt, updatedAt, input.imageUrl, input.published)
      ensures articles == old(articles) + [a]
      ensures categories == old(categories)
    {
      a := Article(id, input.title, input.content, input.excerpt, input.categoryId, input.tags,
                   input.author, createdAt, updatedAt, input.imageUrl, input.published);
      articles := articles + [a];
    }

    method UpdateArticle(id: string, patch: ArticlePatch, now: Timestamp)
      modifies this
      ensures articles == UpdatedArticles(old(articles), id, patch, now)
      ensures categories == old(categories)
    {
      articles := UpdatedArticles(articles, id, patch, now);
    }

    method DeleteArticle(id: string)
      modifies this
      ensures articles == ArticlesWithout(old(articles), id)
      ensures categories == old(categories)
    {
      articles := ArticlesWithout(articles, id);
    }

    /** The published articles, in stored order. */
    function PublishedArticles(): (r: seq<Article>)
      reads this
      ensures IsSubseq(r, articles)
      ensures forall a :: multiset(r)[a] == if a.published then multiset(articles)[a] else 0
    {
      FilterSpec(articles, IsPublished);
      Filter(articles, IsPublished)
    }

    /** The published articles filed exactly under `categoryId`, in stored order. */
    function ArticlesByCategory(categoryId: string): (r: seq<Article>)
      reads this
      ensures IsSubseq(r, articles)
      ensures forall a :: multiset(r)[a] ==
                          if a.categoryId == categoryId && a.published then multiset(articles)[a] else 0
    {
      FilterSpec(articles, (a: Article) => a.categoryId == categoryId && a.published);
      Filter(articles, (a: Article) => a.categoryId == categoryId && a.published)
    }

    /** The published articles whose tag list holds exactly `tag`, in stored order. */
    function ArticlesByTag(tag: string): (r: seq<Article>)
      reads this
      ensures IsSubseq(r, articles)
      ensures forall a :: multiset(r)[a] == if tag in a.tags && a.published then multiset(articles)[a] else 0
    {
      FilterSpec(articles, (a: Article) => tag in a.tags && a.published);
      Filter(articles, (a: Article) => tag in a.tags && a.published)
    }

    /**
     * `getAllTags`: counts, in a dictionary keyed by name, every tag-list
     * entry of every published article, then lists the names in insertion
     * order with their counts and slugs.
     */
    method GetAllTags() returns (tags: seq<Tag>)
      ensures tags == TagIndex(articles)
    {
      var names: seq<string> := [];
      var counts: map<string, nat> := map[];
      for i := 0 to |articles|
        invariant names == Distinct(PublishedTagEntries(articles[..i]))
        invariant counts == CountMap(PublishedTagEntries(articles[..i]))
      {
        var article := articles[i];
        PublishedTagEntriesStep(articles, i);
        if article.published {
          names, counts := CountTags(article.tags, names, counts, PublishedTagEntries(articles[..i]));
        } else {
          assert PublishedTagEntries(articles[..i]) + [] == PublishedTagEntries(articles[..i]);
        }
      }
      assert articles[..|articles|] == articles;
      TallyIsIndex(articles);
      tags := TallyTags(names, counts);
    }
  }
}
