/**
 * The blog's records: categories (two-level hierarchy through an optional
 * parent id), articles, the derived tag entries, the inputs of the create
 * operations and the partial updates (`Partial<T>`) merged by the update
 * operations, plus the built-in seed data.
 *
 * Timestamps are milliseconds since the epoch; the ISO-8601 strings the
 * browser stores are not modelled.
 */
module BlogTypes {

  datatype Option<T> = None | Some(value: T)

  /** `o ?? d` for a field of a partial update: the new value if one is given. */
  function Pick<T>(o: Option<T>, d: T): T {
    match o
    case Some(v) => v
    case None => d
  }

  type Timestamp = int

  /**
   * A category. A category without a (non-empty) parent id is a main
   * category. The seed categories carry no `order`, so it is optional.
   */
  datatype Category = Category(
    id: string,
    name: string,
    description: string,
    color: string,
    parentId: Option<string>,
    order: Option<int>,
    createdAt: Timestamp)

  /** JavaScript truthiness of `parentId`: absent or empty means "main category". */
  predicate IsMain(c: Category) {
    c.parentId == None || c.parentId == Some("")
  }

  datatype Article = Article(
    id: string,
    title: string,
    content: string,
    excerpt: string,
    categoryId: string,
    tags: seq<string>,
    author: string,
    createdAt: Timestamp,
    updatedAt: Timestamp,
    imageUrl: Option<string>,
    published: bool)

  /** `article.published`, as a function value for filters. */
  predicate IsPublished(a: Article) {
    a.published
  }

  /** An entry of the derived tag index. */
  datatype Tag = Tag(id: string, name: string, count: nat)

  /** What `addCategory` receives: a category without id and creation time. */
  datatype CategoryInput = CategoryInput(
    name: string,
    description: string,
    color: string,
    parentId: Option<string>,
    order: Option<int>)

  /** What `addArticle` receives: an article without id and timestamps. */
  datatype ArticleInput = ArticleInput(
    title: string,
    content: string,
    excerpt: string,
    categoryId: string,
    tags: seq<string>,
    author: string,
    imageUrl: Option<string>,
    published: bool)

  /**
   * A `Partial<Category>`: `Some(v)` overwrites the field with `v` (as the
   * object spread `{ ...cat, ...updates }` does), `None` keeps it. For the
   * optional fields `Some(None)` sets the field to `undefined`.
   */
  datatype CategoryPatch = CategoryPatch(
    id: Option<string>,
    name: Option<string>,
    description: Option<string>,
    color: Option<string>,
    parentId: Option<Option<string>>,
    order: Option<Option<int>>,
    createdAt: Option<Timestamp>)

  /** A `Partial<Article>`, read like `CategoryPatch`. */
  datatype ArticlePatch = ArticlePatch(
    id: Option<string>,
    title: Option<string>,
    content: Option<string>,
    excerpt: Option<string>,
    categoryId: Option<string>,
    tags: Option<seq<string>>,
    author: Option<string>,
    createdAt: Option<Timestamp>,
    updatedAt: Option<Timestamp>,
    imageUrl: Option<Option<string>>,
    published: Option<bool>)

  const NoCategoryChange := CategoryPatch(None, None, None, None, None, None, None)
  const NoArticleChange := ArticlePatch(None, None, None, None, None, None, None, None, None, None, None)

  /** `{ tags }` */
  function TagsPatch(tags: seq<string>): ArticlePatch {
    NoArticleChange.(tags := Some(tags))
  }

  /** `{ published }` */
  function PublishedPatch(published: bool): ArticlePatch {
    NoArticleChange.(published := Some(published))
  }

  /**
   * `{ ...cat, ...updates }`: every field the update names is taken from it,
   * so an empty update changes nothing and a full one replaces the record.
   */
  function MergeCategory(c: Category, p: CategoryPatch): (r: Category)
    ensures p == NoCategoryChange ==> r == c
    ensures p.id.Some? && p.name.Some? && p.description.Some? && p.color.Some? && p.parentId.Some? &&
            p.order.Some? && p.createdAt.Some? ==>
      r == Category(p.id.value, p.name.value, p.description.value, p.color.value, p.parentId.value,
                    p.order.value, p.createdAt.value)
  {
    Category(
      Pick(p.id, c.id), Pick(p.name, c.name), Pick(p.description, c.description),
      Pick(p.color, c.color), Pick(p.parentId, c.parentId), Pick(p.order, c.order),
      Pick(p.createdAt, c.createdAt))
  }

  /**
   * `{ ...article, ...updates }`: every field the update names is taken from
   * it, so an empty update changes nothing and one naming only the tags
   * changes only the tags.
   */
  function MergeArticle(a: Article, p: ArticlePatch): (r: Article)
    ensures p == NoArticleChange ==> r == a
    ensures p.tags.Some? && p.(tags := None) == NoArticleChange ==> r == a.(tags := p.tags.value)
  {
    Article(
      Pick(p.id, a.id), Pick(p.title, a.title), Pick(p.content, a.content),
      Pick(p.excerpt, a.excerpt), Pick(p.categoryId, a.categoryId), Pick(p.tags, a.tags),
      Pick(p.author, a.author), Pick(p.createdAt, a.createdAt), Pick(p.updatedAt, a.updatedAt),
      Pick(p.imageUrl, a.imageUrl), Pick(p.published, a.published))
  }

  /** Spreading the same update a second time changes nothing more. */
  lemma MergeTwice(c: Category, p: CategoryPatch, a: Article, q: ArticlePatch)
    ensures MergeCategory(MergeCategory(c, p), p) == MergeCategory(c, p)
    ensures MergeArticle(MergeArticle(a, q), q) == MergeArticle(a, q)
  {
  }

  /** No two articles share an id. */
  predicate UniqueArticleIds(arts: seq<Article>) {
    forall i, j :: 0 <= i < j < |arts| ==> arts[i].id != arts[j].id
  }

  /** No two categories share an id. */
  predicate UniqueCategoryIds(cats: seq<Category>) {
    forall i, j :: 0 <= i < j < |cats| ==> cats[i].id != cats[j].id
  }

  /**
   * `find` by id: the index of the first element whose key is `id`, or none
   * exactly when no element has that key.
   */
  function FindFirst<T>(s: seq<T>, key: T -> string, id: string): (r: Option<nat>)
    ensures r.Some? ==> r.value < |s| && key(s[r.value]) == id
    ensures r.Some? ==> forall k :: 0 <= k < r.value ==> key(s[k]) != id
    ensures r.None? ==> forall k :: 0 <= k < |s| ==> key(s[k]) != id
  {
    if |s| == 0 then None
    else if key(s[0]) == id then Some(0)
    else match FindFirst(s[1..], key, id)
      case None => None
      case Some(k) => Some(k + 1)
  }

  function ArticleId(a: Article): string {
    a.id
  }

  function CategoryId(c: Category): string {
    c.id
  }

  /** `articles.find(a => a.id === id)`, as an index. */
  function FindArticle(arts: seq<Article>, id: string): Option<nat> {
    FindFirst(arts, ArticleId, id)
  }

  /** `categories.find(c => c.id === id)`, as an index. */
  function FindCategory(cats: seq<Category>, id: string): Option<nat> {
    FindFirst(cats, CategoryId, id)
  }

  /** 2024-01-01T00:00:00Z */
  const SeedCategoryTime: Timestamp := 1704067200000

  /**
   * The categories used when storage holds none: three main categories with
   * distinct ids and no order.
   */
  function DefaultCategories(): (r: seq<Category>)
    ensures |r| == 3 && UniqueCategoryIds(r)
    ensures forall i :: 0 <= i < |r| ==> r[i].parentId == None && r[i].order == None
  {
    [ Category("1", "Technology", "Latest tech trends and insights", "#3B82F6", None, None, SeedCategoryTime),
      Category("2", "Design", "UI/UX design principles and trends", "#8B5CF6", None, None, SeedCategoryTime),
      Category("3", "Lifestyle", "Life tips and personal growth", "#10B981", None, None, SeedCategoryTime) ]
  }

  /**
   * The articles used when storage holds none. The HTML bodies are
   * abbreviated to their first heading. They have distinct ids, are all
   * published, were never edited, and each is filed under a seed category.
   */
  function DefaultArticles(): (r: seq<Article>)
    ensures |r| == 3 && UniqueArticleIds(r)
    ensures forall i :: 0 <= i < |r| ==> r[i].published && r[i].updatedAt == r[i].createdAt
    ensures forall i :: 0 <= i < |r| ==> FindCategory(DefaultCategories(), r[i].categoryId).Some?
  {
    SeedCategoryIds();
    [SeedArticle1, SeedArticle2, SeedArticle3]
  }

  const SeedArticle1: Article := Article(
    "1", "The Future of Web Development", "<h2>Introduction</h2>",
    "Explore the cutting-edge technologies that will define the future of web development.",
    "1", ["React", "WebAssembly", "Future Tech"], "Alex Chen", 1705312800000, 1705312800000,
    Some("https://images.pexels.com/photos/11035380/pexels-photo-11035380.jpeg?auto=compress&cs=tinysrgb&w=1260&h=750&dpr=2"),
    true)

  const SeedArticle2: Article := Article(
    "2", "Mastering Modern CSS Grid", "<h2>Understanding CSS Grid</h2>",
    "Learn how to create powerful, responsive layouts with CSS Grid.",
    "2", ["CSS", "Layout", "Web Design"], "Sarah Johnson", 1705069800000, 1705069800000,
    Some("https://images.pexels.com/photos/270348/pexels-photo-270348.jpeg?auto=compress&cs=tinysrgb&w=1260&h=750&dpr=2"),
    true)

  const SeedArticle3: Article := Article(
    "3", "Building Healthy Daily Habits", "<h2>The Power of Small Changes</h2>",
    "Discover how small, consistent actions can transform your daily routine.",
    "3", ["Habits", "Productivity", "Self-Improvement"], "Mike Davis", 1704878100000, 1704878100000,
    Some("https://images.pexels.com/photos/6975474/pexels-photo-6975474.jpeg?auto=compress&cs=tinysrgb&w=1260&h=750&dpr=2"),
    true)

  /** Each of the ids "1", "2" and "3" names a seed category. */
  lemma SeedCategoryIds()
    ensures forall id :: id in ["1", "2", "3"] ==> FindCategory(DefaultCategories(), id).Some?
  {
    var cats := DefaultCategories();
    assert cats[0].id == "1" && cats[1].id == "2" && cats[2].id == "3";
  }
}
