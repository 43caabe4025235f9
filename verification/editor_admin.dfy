/**
 * The admin article editor: the form loaded from the article being edited,
 * the field validation, the tag input, the automatic excerpt and the save,
 * which creates or updates the article through the store.
 *
 * The excerpt is cut from the text the browser extracts out of the HTML
 * content; that extraction is not modelled, so the extracted text is an
 * input. Whether the page was given its optional `addArticle` and
 * `updateArticle` callbacks is fixed when it is built.
 */
module ArticleEditorPage {
  import opened BlogTypes
  import opened Text
  import opened BlogStore
  import opened TagRewrite
  import opened ArticleForms

  /** How many characters of the text an automatic excerpt keeps. */
  const ExcerptLength: nat := 150

  /** The form a new article starts from. */
  const BlankForm := ArticleForm("", "", "", "", [], "Admin", "", false)

  /**
   * The form loaded from an article: its fields and a copy of its tag list,
   * a missing image URL (or an empty one) becoming ''.
   */
  function LoadForm(a: Article): (f: ArticleForm)
    ensures f.title == a.title && f.content == a.content && f.excerpt == a.excerpt
    ensures f.categoryId == a.categoryId && f.tags == a.tags && f.author == a.author
    ensures f.published == a.published
    ensures a.imageUrl.Some? ==> f.imageUrl == a.imageUrl.value
    ensures a.imageUrl.None? ==> f.imageUrl == ""
  {
    var url := match a.imageUrl case Some(u) => u case None => "";
    ArticleForm(a.title, a.content, a.excerpt, a.categoryId, a.tags, a.author, url, a.published)
  }

  /** The fields `validateForm` can complain about. */
  datatype Field = TitleField | ContentField | CategoryField | AuthorField

  /** The keys of the errors `validateForm` reports: one per failing field. */
  function FormErrors(f: ArticleForm): (e: set<Field>)
    ensures TitleField in e <==> IsBlank(f.title)
    ensures ContentField in e <==> IsBlank(f.content)
    ensures CategoryField in e <==> f.categoryId == ""
    ensures AuthorField in e <==> IsBlank(f.author)
  {
    (if Missing(f.title) then {TitleField} else {}) +
    (if Missing(f.content) then {ContentField} else {}) +
    (if f.categoryId == "" then {CategoryField} else {}) +
    (if Missing(f.author) then {AuthorField} else {})
  }

  predicate FormValid(f: ArticleForm) {
    FormErrors(f) == {}
  }

  /** A form is valid exactly when title, content and author hold more than white space and a category is chosen. */
  lemma FormValidSpec(f: ArticleForm)
    ensures FormValid(f) <==> !IsBlank(f.title) && !IsBlank(f.content) && f.categoryId != "" && !IsBlank(f.author)
  {
    if !FormValid(f) {
      var x :| x in FormErrors(f);
    }
  }

  /** The excerpt saved: the trimmed excerpt if there is one, else the automatic one. */
  function SaveExcerpt(f: ArticleForm, text: string): (r: string)
    ensures !IsBlank(f.excerpt) ==> r == Trim(f.excerpt) && r != ""
    ensures IsBlank(f.excerpt) ==> r == Truncate(text, ExcerptLength) && |r| <= ExcerptLength + 3
  {
    if !Missing(f.excerpt) then Trim(f.excerpt) else Truncate(text, ExcerptLength)
  }

  /**
   * `articleData`: the form's fields as they are (not trimmed), with the
   * saved excerpt, the image URL kept even when it is '' and `published`
   * forced to the button's choice.
   */
  function SaveData(f: ArticleForm, publishNow: bool, text: string): (d: ArticleInput)
    ensures d.title == f.title && d.content == f.content && d.categoryId == f.categoryId
    ensures d.tags == f.tags && d.author == f.author && d.imageUrl == Some(f.imageUrl)
    ensures d.excerpt == SaveExcerpt(f, text) && d.published == publishNow
  {
    ArticleInput(f.title, f.content, SaveExcerpt(f, text), f.categoryId, f.tags, f.author, Some(f.imageUrl), publishNow)
  }

  /** The same data as a partial update: every article field but the id and the timestamps. */
  function SavePatch(d: ArticleInput): (p: ArticlePatch)
    ensures forall a :: (MergeArticle(a, p) ==
      Article(a.id, d.title, d.content, d.excerpt, d.categoryId, d.tags, d.author,
              a.createdAt, a.updatedAt, d.imageUrl, d.published))
  {
    ArticlePatch(None, Some(d.title), Some(d.content), Some(d.excerpt), Some(d.categoryId), Some(d.tags),
                 Some(d.author), None, None, Some(d.imageUrl), Some(d.published))
  }

  /**
   * Loading an article with an image and a trimmed excerpt and saving it
   * with its own publication state writes the article back unchanged.
   */
  lemma LoadSaveRoundTrip(a: Article, text: string)
    requires a.imageUrl.Some?
    requires a.excerpt != "" && Trim(a.excerpt) == a.excerpt
    ensures MergeArticle(a, SavePatch(SaveData(LoadForm(a), a.published, text))) == a
  {
  }

  class EditorPage {
    /** The article being edited, if any (`isEditing`). */
    const article: Option<Article>
    const hasAdd: bool
    const hasUpdate: bool
    var form: ArticleForm
    var currentTag: string
    var errors: set<Field>

    /** The page's first state, with the article (if any) loaded into the form. */
    constructor (article: Option<Article>, hasAdd: bool, hasUpdate: bool)
      ensures this.article == article && this.hasAdd == hasAdd && this.hasUpdate == hasUpdate
      ensures form == (match article case Some(a) => LoadForm(a) case None => BlankForm)
      ensures currentTag == "" && errors == {}
    {
      this.article := article;
      this.hasAdd := hasAdd;
      this.hasUpdate := hasUpdate;
      form := match article case Some(a) => LoadForm(a) case None => BlankForm;
      currentTag := "";
      errors := {};
    }

    /** `validateForm`: collects the errors field by field and reports whether there are none. */
    method ValidateForm() returns (ok: bool)
      modifies this
      ensures errors == FormErrors(form) && (ok <==> FormValid(form))
      ensures form == old(form) && currentTag == old(currentTag)
    {
      var e: set<Field> := {};
      if Missing(form.title) {
        e := e + {TitleField};
      }
      if Missing(form.content) {
        e := e + {ContentField};
      }
      if form.categoryId == "" {
        e := e + {CategoryField};
      }
      if Missing(form.author) {
        e := e + {AuthorField};
      }
      assert e == FormErrors(form);
      errors := e;
      ok := e == {};
    }

    /** `addTag`: the input joins the list and is cleared, or nothing changes. */
    method AddTag()
      modifies this
      ensures form == old(form).(tags := WithTag(old(form).tags, old(currentTag)))
      ensures currentTag == if Joins(old(form).tags, old(currentTag)) then "" else old(currentTag)
      ensures errors == old(errors)
    {
      var tag := Trim(currentTag);
      if tag != "" && tag !in form.tags {
        form := form.(tags := form.tags + [tag]);
        currentTag := "";
      }
    }

    /** `removeTag`: every occurrence of the tag leaves the list. */
    method RemoveTag(tag: string)
      modifies this
      ensures form == old(form).(tags := TagRewrite.RemoveTag(old(form).tags, tag))
      ensures currentTag == old(currentTag) && errors == old(errors)
    {
      form := form.(tags := TagRewrite.RemoveTag(form.tags, tag));
    }

    /** `generateExcerpt`, given the text extracted from the content; an empty content changes nothing. */
    method GenerateExcerpt(text: string)
      modifies this
      ensures old(form).content != "" ==> form == old(form).(excerpt := Truncate(text, ExcerptLength))
      ensures old(form).content == "" ==> form == old(form)
      ensures currentTag == old(currentTag) && errors == old(errors)
    {
      if form.content != "" {
        form := form.(excerpt := Truncate(text, ExcerptLength));
      }
    }

    /**
     * `handleSave(publishNow)`: validates; a valid form is saved as an
     * update of the edited article, or as a new article when none is being
     * edited, provided the matching callback was given.
     */
    method HandleSave(store: Store, publishNow: bool, text: string,
                      newId: string, createdAt: Timestamp, updatedAt: Timestamp, now: Timestamp)
      modifies this, store
      ensures errors == FormErrors(old(form)) && form == old(form) && currentTag == old(currentTag)
      ensures store.categories == old(store.categories)
      ensures !FormValid(old(form)) ==> store.articles == old(store.articles)
      ensures FormValid(old(form)) && article.Some? && hasUpdate ==>
        store.articles == UpdatedArticles(old(store.articles), article.value.id,
                                          SavePatch(SaveData(old(form), publishNow, text)), now)
      ensures FormValid(old(form)) && article.None? && hasAdd ==>
        var d := SaveData(old(form), publishNow, text);
        store.articles == old(store.articles) +
          [Article(newId, d.title, d.content, d.excerpt, d.categoryId, d.tags, d.author,
                   createdAt, updatedAt, d.imageUrl, d.published)]
      ensures (article.Some? && !hasUpdate) || (article.None? && !hasAdd) ==> store.articles == old(store.articles)
    {
      var ok := ValidateForm();
      if !ok {
        return;
      }
      var data := SaveData(form, publishNow, text);
      if article.Some? && hasUpdate {
        store.UpdateArticle(article.value.id, SavePatch(data), now);
      } else if article.None? && hasAdd {
        var _ := store.AddArticle(data, newId, createdAt, updatedAt);
      }
    }
  }
}
