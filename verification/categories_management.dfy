/**
 * The category-management page: expanding and collapsing main categories,
 * the create/edit form with its defaults and its two payloads, the guarded
 * two-click delete, the article counts shown beside each category and the
 * delete button's state.
 *
 * `canDeleteCategory` belongs to the category-hierarchy helpers, which are
 * not part of this model: its verdict for the category at hand is a boolean
 * input of the operations that consult it.
 */
module CategoriesManagement {
  import opened BlogTypes
  import opened Seqs
  import opened BlogStore

  /** The form's default colour. */
  const DefaultColor := "#3B82F6"

  datatype ModalType = CreateMain | CreateSub | Edit

  /** The form's state; the parent is a plain string, '' meaning "none". */
  datatype CategoryForm = CategoryForm(
    name: string,
    description: string,
    color: string,
    parentId: string,
    order: Option<int>)

  /** `resetForm`'s values. */
  const EmptyForm := CategoryForm("", "", DefaultColor, "", Some(1))

  /** The test of `cat.parentId === parentId`. */
  function ChildOf(parentId: string): Category -> bool {
    (c: Category) => c.parentId == Some(parentId)
  }

  /**
   * `categories.filter(cat => cat.parentId === parentId)`: the direct
   * children, in order. A category without a parent is nobody's child.
   */
  function Children(cats: seq<Category>, parentId: string): (r: seq<Category>)
    ensures IsSubseq(r, cats)
    ensures forall c :: multiset(r)[c] == if c.parentId == Some(parentId) then multiset(cats)[c] else 0
  {
    FilterSpec(cats, ChildOf(parentId));
    Filter(cats, ChildOf(parentId))
  }

  /** A category has a child exactly when the list of its children is non-empty. */
  lemma ChildrenEmpty(cats: seq<Category>, parentId: string)
    ensures |Children(cats, parentId)| == 0 <==>
            forall k :: 0 <= k < |cats| ==> cats[k].parentId != Some(parentId)
  {
    var r := Children(cats, parentId);
    if |r| == 0 {
      forall k | 0 <= k < |cats|
        ensures cats[k].parentId != Some(parentId)
      {
        assert cats[k] in multiset(cats);
      }
    } else {
      assert r[0] in multiset(r);
      assert r[0] in multiset(cats);
      var k :| 0 <= k < |cats| && cats[k] == r[0];
    }
  }

  /**
   * The form `openCreateSubModal(parentId)` opens: empty texts, the parent
   * preset, the order one past the parent's current number of children and
   * the colour of the first category with that id, unless it has none.
   */
  function SubForm(cats: seq<Category>, parentId: string): (f: CategoryForm)
    ensures f.name == "" && f.description == "" && f.parentId == parentId
    ensures f.order == Some(|Children(cats, parentId)| + 1)
    ensures f.color != ""
    ensures f.color == DefaultColor || exists k :: 0 <= k < |cats| && cats[k].id == parentId && cats[k].color == f.color
    ensures (forall k :: 0 <= k < |cats| ==> cats[k].id != parentId) ==> f.color == DefaultColor
    ensures forall k :: (0 <= k < |cats| && cats[k].id == parentId && cats[k].color != "" &&
                         (forall j :: 0 <= j < k ==> cats[j].id != parentId)) ==> f.color == cats[k].color
  {
    var color :=
      match FindCategory(cats, parentId)
      case Some(k) => if cats[k].color != "" then cats[k].color else DefaultColor
      case None => DefaultColor;
    CategoryForm("", "", color, parentId, Some(|Children(cats, parentId)| + 1))
  }

  /**
   * The order a new sub-category gets is its 1-based position among its
   * parent's children once it has been appended.
   */
  lemma {:induction false} SubOrderIsPosition(cats: seq<Category>, c: Category)
    requires c.parentId.Some?
    ensures var p := c.parentId.value;
      |Children(cats + [c], p)| == |Children(cats, p)| + 1 &&
      Children(cats + [c], p)[|Children(cats, p)|] == c
  {
    FilterSnoc(cats, c, ChildOf(c.parentId.value));
  }

  /** The form `openEditModal` opens on a category. */
  function EditForm(c: Category): (f: CategoryForm)
    ensures f.name == c.name && f.description == c.description && f.color == c.color && f.order == c.order
    ensures f.parentId == "" <==> IsMain(c)
  {
    var parent := match c.parentId case Some(p) => p case None => "";
    CategoryForm(c.name, c.description, c.color, parent, c.order)
  }

  /** What an edit submits: the name, description, colour and order only. */
  function EditPatch(f: CategoryForm): (p: CategoryPatch)
    ensures p.id.None? && p.parentId.None? && p.createdAt.None?
    ensures p.name == Some(f.name) && p.description == Some(f.description)
    ensures p.color == Some(f.color) && p.order == Some(f.order)
  {
    NoCategoryChange.(name := Some(f.name), description := Some(f.description),
                      color := Some(f.color), order := Some(f.order))
  }

  /** What a create submits: the empty parent string becomes "no parent". */
  function CreateInput(f: CategoryForm): (i: CategoryInput)
    ensures i.name == f.name && i.description == f.description && i.color == f.color && i.order == f.order
    ensures i.parentId == None <==> f.parentId == ""
    ensures i.parentId.Some? ==> i.parentId.value == f.parentId
  {
    CategoryInput(f.name, f.description, f.color, if f.parentId == "" then None else Some(f.parentId), f.order)
  }

  /**
   * Submitting an edit never moves a category: ids, parents and creation
   * times stay, the edited category takes the form's texts and order, and
   * every other category is untouched.
   */
  lemma EditKeepsHierarchy(cats: seq<Category>, id: string, f: CategoryForm)
    ensures var r := UpdatedCategories(cats, id, EditPatch(f));
      |r| == |cats| &&
      (forall k :: 0 <= k < |cats| ==>
         r[k].id == cats[k].id && r[k].parentId == cats[k].parentId && r[k].createdAt == cats[k].createdAt) &&
      (forall k :: 0 <= k < |cats| && cats[k].id == id ==>
         r[k].name == f.name && r[k].description == f.description && r[k].color == f.color && r[k].order == f.order) &&
      (forall k :: 0 <= k < |cats| && cats[k].id != id ==> r[k] == cats[k])
  {
    UpdatedCategoriesSpec(cats, id, EditPatch(f));
  }

  /**
   * Opening the edit form on a category and creating from it reproduces the
   * category's own input, unless its parent id is the empty string (which
   * the form cannot tell from "no parent").
   */
  lemma EditFormRoundTrip(c: Category)
    ensures c.parentId != Some("") ==>
      CreateInput(EditForm(c)) == CategoryInput(c.name, c.description, c.color, c.parentId, c.order)
    ensures c.parentId == Some("") ==> CreateInput(EditForm(c)).parentId == None
  {
  }

  /** `getArticleCount`: the articles filed directly under the category, drafts included. */
  function ArticleCount(arts: seq<Article>, categoryId: string): (n: nat)
    ensures n <= |arts|
    ensures n == 0 <==> forall k :: 0 <= k < |arts| ==> arts[k].categoryId != categoryId
  {
    var r := Filter(arts, InCategory(categoryId));
    assert |r| > 0 ==> r[0] in r;
    assert forall k :: 0 <= k < |arts| && arts[k].categoryId == categoryId ==> arts[k] in r;
    |r|
  }

  /** One more article adds one to the count of its own category and to no other. */
  lemma ArticleCountSnoc(arts: seq<Article>, a: Article, categoryId: string)
    ensures ArticleCount(arts + [a], categoryId) ==
            ArticleCount(arts, categoryId) + (if a.categoryId == categoryId then 1 else 0)
  {
    FilterSnoc(arts, a, InCategory(categoryId));
  }

  /**
   * Deleting a category removes exactly as many articles as the count shows,
   * and leaves none behind in it.
   */
  lemma ArticleCountCascade(arts: seq<Article>, categoryId: string)
    ensures ArticleCount(arts, categoryId) + |ArticlesOutside(arts, categoryId)| == |arts|
    ensures ArticleCount(ArticlesOutside(arts, categoryId), categoryId) == 0
  {
    FilterPartition(arts, InCategory(categoryId), OutsideCategory(categoryId));
    var r := ArticlesOutside(arts, categoryId);
    forall k | 0 <= k < |r|
      ensures r[k].categoryId != categoryId
    {
      assert r[k] in multiset(r);
    }
  }

  /** How many of `subs` carry the id. */
  function CountId(subs: seq<Category>, id: string): (n: nat)
    ensures n == 0 <==> forall k :: 0 <= k < |subs| ==> subs[k].id != id
  {
    if |subs| == 0 then 0
    else CountId(subs[..|subs| - 1], id) + (if subs[|subs| - 1].id == id then 1 else 0)
  }

  /**
   * `subs.reduce((total, sub) => total + getArticleCount(sub.id), 0)`: zero
   * exactly when no article is filed under any of `subs`, and at least the
   * count of each of them.
   */
  function SumCounts(subs: seq<Category>, arts: seq<Article>): (n: nat)
    ensures n == 0 <==> forall i :: 0 <= i < |subs| ==> ArticleCount(arts, subs[i].id) == 0
    ensures forall i :: 0 <= i < |subs| ==> ArticleCount(arts, subs[i].id) <= n
  {
    if |subs| == 0 then 0
    else
      var init := subs[..|subs| - 1];
      var m := SumCounts(init, arts);
      var last := ArticleCount(arts, subs[|subs| - 1].id);
      assert forall i :: 0 <= i < |subs| ==> ArticleCount(arts, subs[i].id) <= m + last by {
        forall i | 0 <= i < |subs| ensures ArticleCount(arts, subs[i].id) <= m + last {
          if i < |init| {
            assert init[i] == subs[i];
          }
        }
      }
      assert (forall i :: 0 <= i < |subs| ==> ArticleCount(arts, subs[i].id) == 0) ==> m + last == 0 by {
        if forall i :: 0 <= i < |subs| ==> ArticleCount(arts, subs[i].id) == 0 {
          forall i | 0 <= i < |init| ensures ArticleCount(arts, init[i].id) == 0 {
            assert init[i] == subs[i];
          }
        }
      }
      m + last
  }

  /**
   * `getTotalArticleCount(m)`: the article counts of `m`'s direct children,
   * added up; zero exactly when no article is filed under a child of `m`.
   */
  function TotalArticleCount(cats: seq<Category>, arts: seq<Article>, mainId: string): (n: nat)
    ensures n == 0 <==> forall j, k :: 0 <= j < |cats| && 0 <= k < |arts| && cats[j].parentId == Some(mainId) ==>
                          arts[k].categoryId != cats[j].id
  {
    var subs := Children(cats, mainId);
    forall j | 0 <= j < |cats| && cats[j].parentId == Some(mainId) ensures cats[j] in subs {
      assert cats[j] in multiset(cats);
    }
    forall i | 0 <= i < |subs| ensures subs[i] in cats && subs[i].parentId == Some(mainId) {
      assert subs[i] in multiset(subs);
    }
    SumCounts(subs, arts)
  }

  /** One more article adds one to the sum for each listed category it is filed under. */
  lemma {:induction false} SumCountsSnoc(subs: seq<Category>, arts: seq<Article>, a: Article)
    ensures SumCounts(subs, arts + [a]) == SumCounts(subs, arts) + CountId(subs, a.categoryId)
    decreases |subs|
  {
    if |subs| > 0 {
      SumCountsSnoc(subs[..|subs| - 1], arts, a);
      ArticleCountSnoc(arts, a, subs[|subs| - 1].id);
    }
  }

  /**
   * A new article raises a main category's total by the number of its
   * children carrying the article's category id: by one for an article in a
   * (uniquely named) sub-category, by nothing for one filed under the main
   * category itself.
   */
  lemma TotalArticleCountSnoc(cats: seq<Category>, arts: seq<Article>, a: Article, mainId: string)
    ensures TotalArticleCount(cats, arts + [a], mainId) ==
            TotalArticleCount(cats, arts, mainId) + CountId(Children(cats, mainId), a.categoryId)
  {
    SumCountsSnoc(Children(cats, mainId), arts, a);
  }

  /** Articles attached to the main category itself are not in its total. */
  lemma TotalExcludesOwnArticles(cats: seq<Category>, arts: seq<Article>, a: Article, mainId: string)
    requires a.categoryId == mainId
    requires forall k :: 0 <= k < |cats| && cats[k].id == mainId ==> cats[k].parentId != Some(mainId)
    ensures TotalArticleCount(cats, arts + [a], mainId) == TotalArticleCount(cats, arts, mainId)
  {
    TotalArticleCountSnoc(cats, arts, a, mainId);
    var subs := Children(cats, mainId);
    forall k | 0 <= k < |subs|
      ensures subs[k].id != mainId
    {
      assert subs[k] in multiset(subs);
      assert subs[k] in multiset(cats);
    }
  }

  /**
   * `category && !category.parentId`: the first category with the id exists
   * and has no parent.
   */
  function IsMainId(cats: seq<Category>, id: string): (b: bool)
    ensures b <==> exists k :: 0 <= k < |cats| && cats[k].id == id && IsMain(cats[k]) &&
                              forall j :: 0 <= j < k ==> cats[j].id != id
  {
    match FindCategory(cats, id)
    case Some(k) => IsMain(cats[k])
    case None => false
  }

  /**
   * The second click's guard: deletion is refused only when the hierarchy
   * forbids it and the category is a main one with a child, or a category
   * that is not main (or not found) with an article filed under it.
   */
  function DeleteBlocked(cats: seq<Category>, arts: seq<Article>, id: string, canDelete: bool): (b: bool)
    ensures b <==>
      !canDelete &&
      ((IsMainId(cats, id) && exists k :: 0 <= k < |cats| && cats[k].parentId == Some(id)) ||
       (!IsMainId(cats, id) && exists k :: 0 <= k < |arts| && arts[k].categoryId == id))
  {
    ChildrenEmpty(cats, id);
    !canDelete &&
    if IsMainId(cats, id) then |Children(cats, id)| > 0 else ArticleCount(arts, id) > 0
  }

  /**
   * When the hierarchy forbids the delete but the guard lets it through, the
   * guard has ruled out only one of the two blockers: a main category has no
   * children, and any other category has no articles. The other blocker is
   * not looked at (see `GuardLetsThrough`).
   */
  lemma GuardedDeleteChecksOneBlocker(cats: seq<Category>, arts: seq<Article>, id: string)
    requires !DeleteBlocked(cats, arts, id, false)
    ensures IsMainId(cats, id) ==> forall k :: 0 <= k < |cats| ==> cats[k].parentId != Some(id)
    ensures !IsMainId(cats, id) ==> ArticlesOutside(arts, id) == arts
  {
    ChildrenEmpty(cats, id);
    if !IsMainId(cats, id) {
      FilterAll(arts, OutsideCategory(id));
    }
  }

  /**
   * The rule `canDeleteCategory` is documented to follow: no category has
   * this one as parent and no article is filed under it.
   */
  predicate Deletable(cats: seq<Category>, arts: seq<Article>, id: string) {
    |Children(cats, id)| == 0 && ArticleCount(arts, id) == 0
  }

  /**
   * What the guard as written lets through although the rule forbids it: a
   * main category without children is deleted together with the articles
   * filed under it, and any other category without articles is deleted while
   * its children keep pointing at it.
   */
  lemma GuardLetsThrough(cats: seq<Category>, arts: seq<Article>, id: string)
    requires !DeleteBlocked(cats, arts, id, false) && !Deletable(cats, arts, id)
    ensures IsMainId(cats, id) ==>
      && |Children(cats, id)| == 0 && ArticleCount(arts, id) > 0
      && |ArticlesOutside(arts, id)| == |arts| - ArticleCount(arts, id)
    ensures !IsMainId(cats, id) ==>
      && ArticleCount(arts, id) == 0 && |Children(cats, id)| > 0
      && (forall k :: 0 <= k < |cats| && cats[k].parentId == Some(id) && cats[k].id != id ==>
            cats[k] in CategoriesWithout(cats, id))
      && (forall c :: c in CategoriesWithout(cats, id) ==> c.id != id)
  {
    ArticleCountCascade(arts, id);
    var rest := CategoriesWithout(cats, id);
    forall k | 0 <= k < |cats| && cats[k].parentId == Some(id) && cats[k].id != id
      ensures cats[k] in rest
    {
      assert cats[k] in multiset(cats);
    }
    forall c | c in rest ensures c.id != id {
      assert c in multiset(rest);
    }
  }

  /** A main category "1" with no sub-category and one article filed directly under it. */
  function LoneMain(): seq<Category> {
    [Category("1", "Technology", "", DefaultColor, None, None, 0)]
  }

  function OwnArticle(): Article {
    Article("a", "Title", "Body", "", "1", [], "Admin", 0, 0, None, true)
  }

  /**
   * With `canDelete` false (the category has an article), the second click
   * still deletes main category "1", and the cascade takes its article.
   */
  lemma MainDeletedWithItsArticle()
    ensures !Deletable(LoneMain(), [OwnArticle()], "1")
    ensures !DeleteBlocked(LoneMain(), [OwnArticle()], "1", false)
    ensures ArticlesOutside([OwnArticle()], "1") == []
  {
    var cats := LoneMain();
    assert FindCategory(cats, "1") == Some(0);
    assert IsMainId(cats, "1");
    ChildrenEmpty(cats, "1");
    assert ArticleCount([OwnArticle()], "1") > 0;
  }

  /**
   * With `canDelete` false (the category has a child), the second click
   * still deletes sub-category "11", leaving "111" under a parent that no
   * longer exists.
   */
  lemma SubDeletedOrphaningChild()
    ensures var cats := [Category("1", "Technology", "", DefaultColor, None, None, 0),
                         Category("11", "Web", "", DefaultColor, Some("1"), Some(1), 0),
                         Category("111", "React", "", DefaultColor, Some("11"), Some(1), 0)];
      && !Deletable(cats, [], "11")
      && !DeleteBlocked(cats, [], "11", false)
      && cats[2] in CategoriesWithout(cats, "11")
      && cats[2].parentId == Some("11")
      && forall c :: c in CategoriesWithout(cats, "11") ==> c.id != "11"
  {
    var cats := [Category("1", "Technology", "", DefaultColor, None, None, 0),
                 Category("11", "Web", "", DefaultColor, Some("1"), Some(1), 0),
                 Category("111", "React", "", DefaultColor, Some("11"), Some(1), 0)];
    assert FindCategory(cats[1..], "11") == Some(0);
    assert FindCategory(cats, "11") == Some(1);
    assert !IsMainId(cats, "11");
    ChildrenEmpty(cats, "11");
    assert !Deletable(cats, [], "11");
    GuardLetsThrough(cats, [], "11");
  }

  /**
   * The guard as evidently intended: refuse whenever the hierarchy's verdict
   * forbids the delete, and also whenever the records show a blocker.
   */
  predicate DeleteRefused(cats: seq<Category>, arts: seq<Article>, id: string, canDelete: bool) {
    !canDelete || !Deletable(cats, arts, id)
  }

  /**
   * The intended guard refuses everything the written one refuses; when the
   * verdict follows the documented rule it refuses exactly when the verdict
   * is negative; and a delete it lets through orphans no child and takes no
   * article along.
   */
  lemma DeleteRefusedSpec(cats: seq<Category>, arts: seq<Article>, id: string, canDelete: bool)
    ensures DeleteBlocked(cats, arts, id, canDelete) ==> DeleteRefused(cats, arts, id, canDelete)
    ensures canDelete == Deletable(cats, arts, id) ==> (DeleteRefused(cats, arts, id, canDelete) <==> !canDelete)
    ensures !DeleteRefused(cats, arts, id, canDelete) ==>
      && (forall k :: 0 <= k < |cats| ==> cats[k].parentId != Some(id))
      && ArticlesOutside(arts, id) == arts
  {
    ChildrenEmpty(cats, id);
    if !DeleteRefused(cats, arts, id, canDelete) {
      FilterAll(arts, OutsideCategory(id));
    }
  }

  /** The hint shown on a delete button. */
  datatype ButtonTitle =
    | RemoveSubsFirst(count: nat)
    | HasArticles(count: nat)
    | ClickAgain
    | DeleteCategory

  datatype DeleteButtonProps = DeleteButtonProps(disabled: bool, title: ButtonTitle)

  /** `getDeleteButtonProps`: disabled whenever the hierarchy forbids the delete. */
  function DeleteButton(cats: seq<Category>, arts: seq<Article>, id: string, canDelete: bool, deleteConfirm: string)
    : (b: DeleteButtonProps)
    ensures b.disabled <==> !canDelete
    ensures b.title == ClickAgain <==> canDelete && deleteConfirm == id
  {
    if !canDelete then
      if IsMainId(cats, id) then DeleteButtonProps(true, RemoveSubsFirst(|Children(cats, id)|))
      else DeleteButtonProps(true, HasArticles(ArticleCount(arts, id)))
    else if deleteConfirm == id then DeleteButtonProps(false, ClickAgain)
    else DeleteButtonProps(false, DeleteCategory)
  }

  /**
   * The button announces a positive number of blocking children or articles
   * exactly when a confirmed click would be refused.
   */
  lemma ButtonAgreesWithGuard(cats: seq<Category>, arts: seq<Article>, id: string, canDelete: bool, deleteConfirm: string)
    ensures var t := DeleteButton(cats, arts, id, canDelete, deleteConfirm).title;
      DeleteBlocked(cats, arts, id, canDelete) <==>
      ((t.RemoveSubsFirst? || t.HasArticles?) && t.count > 0)
  {
  }

  class CategoriesPage {
    var expanded: set<string>
    var isModalOpen: bool
    var editing: Option<Category>
    var modalType: ModalType
    var selectedParent: string
    var deleteConfirm: string
    var form: CategoryForm

    constructor ()
      ensures expanded == {} && !isModalOpen && editing == None && modalType == CreateMain
      ensures selectedParent == "" && deleteConfirm == "" && form == EmptyForm
    {
      expanded := {};
      isModalOpen := false;
      editing := None;
      modalType := CreateMain;
      selectedParent := "";
      deleteConfirm := "";
      form := EmptyForm;
    }

    /** `toggleExpanded`: flips whether the category's children are shown. */
    method ToggleExpanded(categoryId: string)
      modifies this
      ensures expanded == SetToggled(old(expanded), categoryId)
      ensures isModalOpen == old(isModalOpen) && editing == old(editing) && modalType == old(modalType)
      ensures selectedParent == old(selectedParent) && deleteConfirm == old(deleteConfirm) && form == old(form)
    {
      expanded := SetToggled(expanded, categoryId);
    }

    /** `resetForm` */
    method ResetForm()
      modifies this
      ensures form == EmptyForm && editing == None && selectedParent == ""
      ensures expanded == old(expanded) && isModalOpen == old(isModalOpen)
      ensures modalType == old(modalType) && deleteConfirm == old(deleteConfirm)
    {
      form := EmptyForm;
      editing := None;
      selectedParent := "";
    }

    /** `openCreateMainModal` */
    method OpenCreateMain()
      modifies this
      ensures form == EmptyForm && editing == None && selectedParent == ""
      ensures modalType == CreateMain && isModalOpen
      ensures expanded == old(expanded) && deleteConfirm == old(deleteConfirm)
    {
      ResetForm();
      modalType := CreateMain;
      isModalOpen := true;
    }

    /** `openCreateSubModal(parentId)` */
    method OpenCreateSub(store: Store, parentId: string)
      modifies this
      ensures form == SubForm(store.categories, parentId) && editing == None && selectedParent == parentId
      ensures modalType == CreateSub && isModalOpen
      ensures expanded == old(expanded) && deleteConfirm == old(deleteConfirm)
    {
      ResetForm();
      form := SubForm(store.categories, parentId);
      selectedParent := parentId;
      modalType := CreateSub;
      isModalOpen := true;
    }

    /** `openEditModal(category)`; the selected parent is left as it was. */
    method OpenEdit(category: Category)
      modifies this
      ensures form == EditForm(category) && editing == Some(category)
      ensures modalType == Edit && isModalOpen
      ensures expanded == old(expanded) && deleteConfirm == old(deleteConfirm) && selectedParent == old(selectedParent)
    {
      form := EditForm(category);
      editing := Some(category);
      modalType := Edit;
      isModalOpen := true;
    }

    /**
     * `handleSubmit`: in edit mode with a category being edited, sends the
     * edit payload for it; otherwise creates a category from the form under
     * the given fresh id and time. Then closes the modal and resets the form.
     */
    method HandleSubmit(store: Store, newId: string, now: Timestamp)
      modifies this, store
      ensures old(modalType) == Edit && old(editing).Some? ==>
        store.categories == UpdatedCategories(old(store.categories), old(editing).value.id, EditPatch(old(form)))
      ensures !(old(modalType) == Edit && old(editing).Some?) ==>
        var i := CreateInput(old(form));
        store.categories == old(store.categories) + [Category(newId, i.name, i.description, i.color, i.parentId, i.order, now)]
      ensures store.articles == old(store.articles)
      ensures !isModalOpen && form == EmptyForm && editing == None && selectedParent == ""
      ensures expanded == old(expanded) && modalType == old(modalType) && deleteConfirm == old(deleteConfirm)
    {
      if modalType == Edit && editing.Some? {
        store.UpdateCategory(editing.value.id, EditPatch(form));
      } else {
        var _ := store.AddCategory(CreateInput(form), newId, now);
      }
      isModalOpen := false;
      ResetForm();
    }

    /**
     * `handleDelete(categoryId)`, with the hierarchy's verdict `canDelete`:
     * a first click arms the id; a second click either is refused by the
     * guard or deletes the category with its articles. Either way the
     * confirmation is cleared.
     */
    method HandleDelete(store: Store, categoryId: string, canDelete: bool)
      modifies this, store
      ensures old(deleteConfirm) != categoryId ==>
        deleteConfirm == categoryId &&
        store.categories == old(store.categories) && store.articles == old(store.articles)
      ensures old(deleteConfirm) == categoryId && DeleteBlocked(old(store.categories), old(store.articles), categoryId, canDelete) ==>
        deleteConfirm == "" &&
        store.categories == old(store.categories) && store.articles == old(store.articles)
      ensures old(deleteConfirm) == categoryId && !DeleteBlocked(old(store.categories), old(store.articles), categoryId, canDelete) ==>
        deleteConfirm == "" &&
        store.categories == CategoriesWithout(old(store.categories), categoryId) &&
        store.articles == ArticlesOutside(old(store.articles), categoryId)
      ensures expanded == old(expanded) && isModalOpen == old(isModalOpen) && editing == old(editing)
      ensures modalType == old(modalType) && selectedParent == old(selectedParent) && form == old(form)
    {
      if deleteConfirm != categoryId {
        deleteConfirm := categoryId;
        return;
      }
      if !canDelete {
        if IsMainId(store.categories, categoryId) {
          if |Children(store.categories, categoryId)| > 0 {
            deleteConfirm := "";
            return;
          }
        } else if ArticleCount(store.articles, categoryId) > 0 {
          deleteConfirm := "";
          return;
        }
      }
      store.DeleteCategory(categoryId);
      deleteConfirm := "";
    }

    /**
     * `handleDelete` with the guard failing closed: a second click on the
     * armed id deletes only when neither the hierarchy's verdict nor the
     * records forbid it, and then nothing but the category goes.
     */
    method HandleDeleteFailClosed(store: Store, categoryId: string, canDelete: bool)
      modifies this, store
      ensures old(deleteConfirm) != categoryId ==>
        deleteConfirm == categoryId &&
        store.categories == old(store.categories) && store.articles == old(store.articles)
      ensures old(deleteConfirm) == categoryId && DeleteRefused(old(store.categories), old(store.articles), categoryId, canDelete) ==>
        deleteConfirm == "" &&
        store.categories == old(store.categories) && store.articles == old(store.articles)
      ensures old(deleteConfirm) == categoryId && !DeleteRefused(old(store.categories), old(store.articles), categoryId, canDelete) ==>
        deleteConfirm == "" &&
        store.categories == CategoriesWithout(old(store.categories), categoryId) &&
        store.articles == old(store.articles) &&
        forall c :: c in store.categories ==> c.parentId != Some(categoryId)
      ensures expanded == old(expanded) && isModalOpen == old(isModalOpen) && editing == old(editing)
      ensures modalType == old(modalType) && selectedParent == old(selectedParent) && form == old(form)
    {
      if deleteConfirm != categoryId {
        deleteConfirm := categoryId;
        return;
      }
      if DeleteRefused(store.categories, store.articles, categoryId, canDelete) {
        deleteConfirm := "";
        return;
      }
      DeleteRefusedSpec(store.categories, store.articles, categoryId, canDelete);
      var before := store.categories;
      store.DeleteCategory(categoryId);
      forall c | c in store.categories ensures c.parentId != Some(categoryId) {
        assert c in multiset(store.categories);
        assert c in multiset(before);
      }
      deleteConfirm := "";
    }
  }
}
